/** What `BuildFromWcsStr` makes of every text: numbers separated by dots, with or without a dot in front, and
    whatever follows them. */
module OidReading {
  import opened Wrappers
  import opened Words
  import opened OidText

  /** The number that decimal digits stand for, written behind `acc`. */
  function Value(acc: nat, ds: seq<char>): nat
    requires AllDigits(ds)
    decreases |ds|
  {
    if ds == [] then acc else Value(acc * 10 + (ds[0] as nat - '0' as nat), ds[1..])
  }

  lemma WrapDigit(acc: nat, k: nat)
    ensures (acc % WORD32 * 10 + k) % WORD32 == (acc * 10 + k) % WORD32
  {
    var q, r := acc / WORD32, acc % WORD32;
    var q', r' := (r * 10 + k) / WORD32, (r * 10 + k) % WORD32;
    ModOf(acc * 10 + k, WORD32, 10 * q + q', r');
  }

  /** A number of any length is kept as far as 32 bits hold it. */
  lemma {:induction false} ReadDigitsIs(acc: nat, ds: seq<char>)
    requires AllDigits(ds)
    ensures ReadDigits(acc % 0x1_0000_0000, ds) == Value(acc, ds) % 0x1_0000_0000
    decreases |ds|
  {
    if ds == [] {
    } else {
      var k := ds[0] as nat - '0' as nat;
      WrapDigit(acc, k);
      ReadDigitsIs(acc * 10 + k, ds[1..]);
    }
  }

  lemma {:induction false} ValueSnoc(acc: nat, ds: seq<char>, c: char)
    requires AllDigits(ds) && IsDigit(c)
    ensures Value(acc, ds + [c]) == Value(acc, ds) * 10 + (c as nat - '0' as nat)
    decreases |ds|
  {
    if ds == [] {
      assert [c][1..] == [] && ds + [c] == [c];
    } else {
      assert (ds + [c])[1..] == ds[1..] + [c];
      ValueSnoc(acc * 10 + (ds[0] as nat - '0' as nat), ds[1..], c);
    }
  }

  /** A number is printed with the digits that stand for it and no zero in front. */
  lemma {:induction false} DecimalIs(n: nat)
    ensures Value(0, Decimal(n)) == n && (Decimal(n)[0] == '0' <==> n == 0)
  {
    if n < 10 {
      ValueSnoc(0, [], Digit(n));
      assert [] + [Digit(n)] == [Digit(n)];
    } else {
      DecimalIs(n / 10);
      ValueSnoc(0, Decimal(n / 10), Digit(n % 10));
    }
  }

  // ---- Texts ----

  /** Digits, one after the other at least. */
  predicate Number(ds: seq<char>) { ds != [] && AllDigits(ds) }

  predicate Numbers(dss: seq<seq<char>>) { forall i :: 0 <= i < |dss| ==> Number(dss[i]) }

  /** A dot before each number. */
  function Joined(dss: seq<seq<char>>): seq<char>
    decreases |dss|, 1
  {
    if dss == [] then [] else ['.'] + Undotted(dss)
  }

  /** A dot between the numbers. */
  function Undotted(dss: seq<seq<char>>): seq<char>
    requires dss != []
    decreases |dss|, 0
  {
    dss[0] + Joined(dss[1..])
  }

  function Values(dss: seq<seq<char>>): (vs: seq<nat>)
    requires Numbers(dss)
    ensures |vs| == |dss|
  {
    seq(|dss|, i requires 0 <= i < |dss| => Value(0, dss[i]) % 0x1_0000_0000)
  }

  /** What follows the last number: nothing; a dot without a number behind it; or something else. */
  predicate Tail(t: seq<char>) {
    t == [] || (!IsDigit(t[0]) && (t[0] == '.' && |t| > 1 ==> !IsDigit(t[1])))
  }

  /** Numbers and a tail come back as the numbers: if there are at most 51, or, before a dot, at most 50. */
  predicate Fits(n: nat, t: seq<char>) { n <= 50 || (n == 51 && (t == [] || t[0] != '.')) }

  lemma Regroup(a: seq<char>, b: seq<char>, c: seq<char>)
    ensures a + b + c == a + (b + c)
  {
  }

  lemma JoinedIs(dss: seq<seq<char>>)
    ensures Joined(dss) == if dss == [] then [] else ['.'] + Undotted(dss)
    ensures dss != [] ==> Undotted(dss) == dss[0] + Joined(dss[1..])
  {
  }

  lemma LastScan(t: seq<char>, arcs: seq<nat>, text: seq<char>)
    requires Tail(t) && text != []
    ensures AfterNumber(t, arcs, text)
         == if t != [] && t[0] == '.' && |arcs| > 50 then None else Some((arcs, text))
  {
    assert (text + ['.'])[..|text|] == text;
  }

  lemma ValuesStep(dss: seq<seq<char>>)
    requires dss != [] && Numbers(dss)
    ensures Number(dss[0]) && Numbers(dss[1..]) && Values(dss) == [ReadDigits(0, dss[0])] + Values(dss[1..])
  {
    hide ReadDigits, Value;
    assert Number(dss[0]);
    ModOf(0, WORD32, 0, 0);
    ReadDigitsIs(0, dss[0]);
  }

  lemma {:induction false} ScanIs(dss: seq<seq<char>>, t: seq<char>, before: seq<nat>, text: seq<char>)
    requires dss != [] && Numbers(dss) && Tail(t) && text != [] && |before| <= 50
    ensures Scan(Undotted(dss) + t, before, text)
         == if Fits(|before| + |dss|, t) then Some((before + Values(dss), text + Undotted(dss))) else None
    decreases |dss|
  {
    hide Scan, ReadDigits, AllDigits, Joined, Undotted, Values;
    var ds, rest, v := dss[0], Joined(dss[1..]), ReadDigits(0, dss[0]);
    JoinedIs(dss);
    JoinedIs(dss[1..]);
    ValuesStep(dss);
    Regroup(ds, rest, t);
    if |dss| == 1 {
      assert rest + t == t && ds + rest == ds;
      ScanNumber(ds, t, before, text);
      LastScan(t, before + [v], text + ds);
      NoValues(dss[1..]);
      assert [v] + [] == [v];
    } else {
      var more := Undotted(dss[1..]);
      Regroup(['.'], more, t);
      ScanNumber(ds, ['.'] + (more + t), before, text);
      if |before| < 50 {
        ScanIs(dss[1..], t, before + [v], text + ds + ['.']);
        assert before + [v] + Values(dss[1..]) == before + Values(dss);
        Regroup(text, ds, ['.']);
        Regroup(text, ds + ['.'], more);
        Regroup(ds, ['.'], more);
      }
    }
  }

  lemma NoValues(dss: seq<seq<char>>)
    requires dss == []
    ensures Values(dss) == []
  {
  }

  // ---- Every text ----

  /** Numbers with a dot before each, or before each but the first if that begins with one of the digits 1 to 8, and
      a tail: the arcs are the numbers, the text is the dotted one without the tail. */
  lemma BuildIs(dss: seq<seq<char>>, t: seq<char>)
    requires dss != [] && Numbers(dss) && Tail(t)
    ensures var s := Joined(dss) + t;
            Build(s) == if |s| <= 255 && Fits(|dss|, t) then Some((Values(dss), Joined(dss))) else None
    ensures var s := Undotted(dss) + t;
            Build(s) == if |s| <= 255 && Fits(|dss|, t) && '1' <= s[0] <= '8' then Some((Values(dss), Joined(dss))) else None
  {
    hide Scan, AllDigits, Joined, Undotted, Values;
    var s := Joined(dss) + t;
    JoinedIs(dss);
    Regroup(['.'], Undotted(dss), t);
    assert s[0] == '.' && s[1..] == Undotted(dss) + t;
    assert Number(dss[0]) && s[1..][0] == dss[0][0];
    FirstDigit(dss[0]);
    ScanIs(dss, t, [], ['.']);
    assert [] + Values(dss) == Values(dss);
  }

  lemma FirstDigit(ds: seq<char>)
    requires Number(ds)
    ensures '0' <= ds[0] <= '9'
  {
    assert IsDigit(ds[0]);
  }

  /** Every other text leaves nothing: one that begins neither with a dot nor with one of these digits, and a dot
      without a number behind it. */
  lemma BuildNothing(s: seq<char>)
    requires s == [] || !(s[0] == '.' || '1' <= s[0] <= '8') || (s[0] == '.' && (|s| == 1 || !IsDigit(s[1])))
    ensures Build(s).None?
  {
  }

  /** And these are all the texts. */
  lemma {:induction false} TakenApart(s: seq<char>) returns (dss: seq<seq<char>>, t: seq<char>)
    requires |s| >= 2 && s[0] == '.' && IsDigit(s[1])
    ensures dss != [] && Numbers(dss) && Tail(t) && s == Joined(dss) + t
    decreases |s|
  {
    hide AllDigits, Joined, Undotted;
    var ds, rest := RunOfOne(s[1..]);
    assert s == ['.'] + (ds + rest);
    if |rest| >= 2 && rest[0] == '.' && IsDigit(rest[1]) {
      dss, t := TakenApart(rest);
    } else {
      dss, t := [], rest;
      JoinedIs(dss);
      assert [] + t == rest;
    }
    assert ([ds] + dss)[1..] == dss;
    dss := [ds] + dss;
    JoinedIs(dss);
    Regroup(ds, Joined(dss[1..]), t);
    Regroup(['.'], Undotted(dss), t);
  }

  lemma RunOfOne(s: seq<char>) returns (ds: seq<char>, rest: seq<char>)
    requires s != [] && IsDigit(s[0])
    ensures Number(ds) && s == ds + rest && (rest != [] ==> !IsDigit(rest[0]))
  {
    var n := DigitRun(s);
    ds, rest := s[..n], s[n..];
  }

  // ---- Printed texts ----

  function Decimals(arcs: seq<nat>): (dss: seq<seq<char>>)
    ensures |dss| == |arcs|
  {
    seq(|arcs|, i requires 0 <= i < |arcs| => Decimal(arcs[i]))
  }

  lemma {:induction false} DottedIs(arcs: seq<nat>)
    requires forall i :: 0 <= i < |arcs| ==> arcs[i] < WORD32
    ensures Numbers(Decimals(arcs)) && Values(Decimals(arcs)) == arcs && Joined(Decimals(arcs)) == Dotted(arcs)
  {
    hide Decimal, Value, ReadDigits, AllDigits, Joined, Undotted, Dotted;
    forall i | 0 <= i < |arcs| ensures Number(Decimal(arcs[i])) && Value(0, Decimal(arcs[i])) % WORD32 == arcs[i] {
      DigitsOf(arcs[i]);
      ModOf(0, WORD32, 0, 0);
      ReadDigitsIs(0, Decimal(arcs[i]));
      ReadDecimal(arcs[i]);
    }
    JoinedDecimals(arcs);
  }

  lemma {:induction false} JoinedDecimals(arcs: seq<nat>)
    ensures Joined(Decimals(arcs)) == Dotted(arcs)
    decreases |arcs|
  {
    hide Decimal;
    if arcs == [] {
    } else {
      JoinedDecimals(arcs[1..]);
      assert Decimals(arcs)[1..] == Decimals(arcs[1..]);
      Regroup(['.'], Decimal(arcs[0]), Dotted(arcs[1..]));
    }
  }

  /** A printed text, with its first dot or without it, and anything behind it that does not go on with a digit or with a
      dot and a digit: it comes back whole, and alone, if it fits. */
  lemma DottedWithTail(arcs: seq<nat>, t: seq<char>)
    requires arcs != [] && (forall i :: 0 <= i < |arcs| ==> arcs[i] < WORD32) && Tail(t)
    ensures var s := Dotted(arcs) + t;
            Build(s) == if |s| <= 255 && Fits(|arcs|, t) then Some((arcs, Dotted(arcs))) else None
    ensures var s := Dotted(arcs)[1..] + t;
            s != [] && Build(s) == if |s| <= 255 && Fits(|arcs|, t) && '1' <= s[0] <= '8' then Some((arcs, Dotted(arcs))) else None
  {
    hide Decimal, Decimals, AllDigits, Joined, Undotted, Dotted, Build;
    DottedIs(arcs);
    var dss := Decimals(arcs);
    JoinedIs(dss);
    assert Joined(dss)[1..] == Undotted(dss);
    assert Number(dss[0]);
    BuildIs(dss, t);
  }

  /** A text may go without its first dot, if its first digit is one of 1 to 8. */
  lemma WithoutFirstDot(arcs: seq<nat>)
    requires arcs != [] && (forall i :: 0 <= i < |arcs| ==> arcs[i] < WORD32) && |Dotted(arcs)| <= 255
    ensures |Dotted(arcs)| >= 2
    ensures '1' <= Dotted(arcs)[1] <= '8' ==> Build(Dotted(arcs)[1..]) == Build(Dotted(arcs))
    ensures !('1' <= Dotted(arcs)[1] <= '8') ==> Build(Dotted(arcs)[1..]).None?
  {
    hide Build, Dotted;
    DottedChars(arcs);
    assert Dotted(arcs)[1..] + [] == Dotted(arcs)[1..] && Dotted(arcs) + [] == Dotted(arcs);
    DottedWithTail(arcs, []);
  }

  /** A character that is neither a digit nor a dot, and anything after it, leaves what is in front of it. */
  lemma JunkIsDropped(arcs: seq<nat>, c: char, junk: seq<char>)
    requires arcs != [] && (forall i :: 0 <= i < |arcs| ==> arcs[i] < WORD32)
    requires !('0' <= c <= '9') && c != '.' && |Dotted(arcs)| + 1 + |junk| <= 255
    ensures Build(Dotted(arcs) + ([c] + junk)) == if |arcs| <= 51 then Some((arcs, Dotted(arcs))) else None
  {
    hide Build, Dotted;
    DottedWithTail(arcs, [c] + junk);
  }

  /** A final dot is dropped, and with it anything that does not begin with a digit. */
  lemma FinalDotIsDropped(arcs: seq<nat>, junk: seq<char>)
    requires arcs != [] && (forall i :: 0 <= i < |arcs| ==> arcs[i] < WORD32)
    requires (junk == [] || !('0' <= junk[0] <= '9')) && |Dotted(arcs)| + 1 + |junk| <= 255
    ensures Build(Dotted(arcs) + (['.'] + junk)) == if |arcs| <= 50 then Some((arcs, Dotted(arcs))) else None
  {
    hide Build, Dotted;
    DottedWithTail(arcs, ['.'] + junk);
  }
}
