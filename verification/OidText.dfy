/** The dotted decimal form of an object identifier: what `MakeWcsStr` prints and what
    `BuildFromWcsStr` reads. */
module OidText {
  import opened Wrappers
  import opened Words

  const MAXOIDSTRLEN: nat := 255
  const MAXOIDLEN: nat := 50

  // ---- Decimal numbers ----

  predicate IsDigit(c: char) { '0' <= c <= '9' }

  function Digit(n: nat): (c: char)
    requires n < 10
    ensures IsDigit(c)
  {
    '0' + n as char
  }

  function Decimal(n: nat): (s: seq<char>)
    ensures |s| >= 1 && forall i :: 0 <= i < |s| ==> IsDigit(s[i])
  {
    if n < 10 then [Digit(n)] else Decimal(n / 10) + [Digit(n % 10)]
  }

  function DigitValue(c: char): nat
    requires IsDigit(c)
  {
    c as nat - '0' as nat
  }

  /** One more digit, in a 32-bit word. */
  function ReadDigit(acc: nat, c: char): nat
    requires IsDigit(c)
  {
    (acc * 10 + DigitValue(c)) % WORD32
  }

  predicate AllDigits(s: seq<char>) { forall i :: 0 <= i < |s| ==> IsDigit(s[i]) }

  function ReadDigits(acc: nat, s: seq<char>): nat
    requires AllDigits(s)
    decreases |s|
  {
    if s == [] then acc else ReadDigits(ReadDigit(acc, s[0]), s[1..])
  }

  lemma {:induction false} ReadDigitsSnoc(acc: nat, s: seq<char>, c: char)
    requires AllDigits(s) && IsDigit(c)
    ensures ReadDigits(acc, s + [c]) == ReadDigit(ReadDigits(acc, s), c)
    decreases |s|
  {
    if s == [] {
      assert [c][1..] == [] && s + [c] == [c];
    } else {
      assert (s + [c])[1..] == s[1..] + [c];
      ReadDigitsSnoc(ReadDigit(acc, s[0]), s[1..], c);
    }
  }

  lemma {:induction false} ReadDecimal(n: nat)
    requires n < WORD32
    ensures ReadDigits(0, Decimal(n)) == n
  {
    if n < 10 {
      ReadDigitsSnoc(0, [], Digit(n));
      assert [] + [Digit(n)] == [Digit(n)];
    } else {
      ReadDecimal(n / 10);
      ReadDigitsSnoc(0, Decimal(n / 10), Digit(n % 10));
    }
  }

  // ---- Printing ----

  /** ".1.3.6" for [1, 3, 6]. */
  function Dotted(arcs: seq<nat>): seq<char>
  {
    if arcs == [] then [] else ['.'] + Decimal(arcs[0]) + Dotted(arcs[1..])
  }

  lemma {:induction false} DottedSnoc(arcs: seq<nat>, v: nat)
    ensures Dotted(arcs + [v]) == Dotted(arcs) + ['.'] + Decimal(v)
    decreases |arcs|
  {
    if arcs == [] {
      assert arcs + [v] == [v] && [v][1..] == [];
    } else {
      assert (arcs + [v])[1..] == arcs[1..] + [v];
      DottedSnoc(arcs[1..], v);
    }
  }

  lemma {:induction false} DottedChars(arcs: seq<nat>)
    ensures forall i :: 0 <= i < |Dotted(arcs)| ==> Dotted(arcs)[i] == '.' || IsDigit(Dotted(arcs)[i])
    ensures |Dotted(arcs)| >= 2 * |arcs|
  {
    if arcs == [] {
    } else {
      DottedChars(arcs[1..]);
    }
  }

  /** What becomes of a conversion to text: the text; nothing, as it is too long; or, one arc later
      than it can be noticed, a write behind the buffer. */
  datatype Printed = Text(text: seq<char>) | Discarded | Overrun

  /** `MakeWcsStr`, arc by arc, from arc `i` on. */
  function Print(arcs: seq<nat>, i: nat): Printed
    requires i <= |arcs|
    decreases |arcs| - i
  {
    if i == |arcs| then Text(Dotted(arcs))
    else
      var n := |Dotted(arcs[..i + 1])|;
      if n > MAXOIDSTRLEN then Overrun
      else if n + 1 >= MAXOIDSTRLEN then Discarded
      else Print(arcs, i + 1)
  }

  lemma {:induction false} DottedPrefix(arcs: seq<nat>, i: nat, j: nat)
    requires i <= j <= |arcs|
    ensures |Dotted(arcs[..i])| <= |Dotted(arcs[..j])|
    decreases j - i
  {
    if i == j {
    } else {
      DottedSnoc(arcs[..j - 1], arcs[j - 1]);
      assert arcs[..j] == arcs[..j - 1] + [arcs[j - 1]];
      DottedPrefix(arcs, i, j - 1);
    }
  }

  /** The conversion yields the text exactly if that has at most 253 characters. */
  lemma {:induction false} PrintsIff(arcs: seq<nat>, i: nat)
    requires i <= |arcs| && (i > 0 ==> |Dotted(arcs[..i])| <= 253)
    ensures |Dotted(arcs)| <= 253 <==> Print(arcs, i) == Text(Dotted(arcs))
    ensures |Dotted(arcs)| > 253 <==> !Print(arcs, i).Text?
    decreases |arcs| - i
  {
    assert arcs[..|arcs|] == arcs;
    if i < |arcs| {
      DottedPrefix(arcs, i + 1, |arcs|);
      if |Dotted(arcs[..i + 1])| <= 253 {
        PrintsIff(arcs, i + 1);
      }
    } else if i == 0 {
      assert arcs == [];
    }
  }

  /** No prefix has a length at which the conversion notices that the text gets too long. */
  predicate Unnoticed(arcs: seq<nat>) {
    forall k :: 0 < k <= |arcs| ==> var n := |Dotted(arcs[..k])|; n < 254 || 255 < n
  }

  /** The conversion writes beyond its buffer exactly if the text is longer than the buffer and no prefix
      of it ends at a length of 254 or 255, at which it would have been dropped. */
  lemma OverrunsIff(arcs: seq<nat>)
    ensures Print(arcs, 0).Overrun? <==> |Dotted(arcs)| > 255 && Unnoticed(arcs)
    ensures Print(arcs, 0).Discarded? <==> |Dotted(arcs)| > 253 && !(|Dotted(arcs)| > 255 && Unnoticed(arcs))
  {
    PrintsIff(arcs, 0);
    OverrunsFrom(arcs, 0);
  }

  lemma {:induction false} OverrunsFrom(arcs: seq<nat>, i: nat)
    requires i <= |arcs| && (forall k :: 0 < k <= i ==> |Dotted(arcs[..k])| <= 253)
    ensures Print(arcs, i).Overrun? <==> |Dotted(arcs)| > 255 && Unnoticed(arcs)
    decreases |arcs| - i
  {
    hide Dotted;
    assert arcs[..|arcs|] == arcs;
    if i == |arcs| {
      NoneShort(arcs);
    } else {
      DottedPrefix(arcs, i + 1, |arcs|);
      var n := |Dotted(arcs[..i + 1])|;
      if n > 255 {
        forall k | i + 1 <= k <= |arcs| ensures |Dotted(arcs[..k])| > 255 { DottedPrefix(arcs, i + 1, k); }
      } else if n + 1 < 255 {
        OverrunsFrom(arcs, i + 1);
      }
    }
  }

  lemma NoneShort(arcs: seq<nat>)
    requires forall k :: 0 < k <= |arcs| ==> |Dotted(arcs[..k])| <= 253
    ensures |Dotted(arcs)| <= 255
  {
    if arcs == [] {
    } else {
      assert arcs[..|arcs|] == arcs;
    }
  }

  function Repeated(v: nat, n: nat): seq<nat> { if n == 0 then [] else Repeated(v, n - 1) + [v] }

  lemma {:induction false} RepeatedLength(v: nat, n: nat)
    ensures |Repeated(v, n)| == n && |Dotted(Repeated(v, n))| == n * (1 + |Decimal(v)|)
    ensures forall k :: 0 <= k <= n ==> Repeated(v, n)[..k] == Repeated(v, k)
  {
    if n == 0 {
    } else {
      RepeatedLength(v, n - 1);
      DottedSnoc(Repeated(v, n - 1), v);
      assert n * (1 + |Decimal(v)|) == (n - 1) * (1 + |Decimal(v)|) + (1 + |Decimal(v)|);
      forall k | 0 <= k <= n ensures Repeated(v, n)[..k] == Repeated(v, k) {
        if k < n {
          assert Repeated(v, n)[..k] == Repeated(v, n - 1)[..k];
        }
      }
    }
  }

  /** Twenty-three arcs of ten digits fill 253 characters; with 10 for the next one, the conversion writes
      beyond its buffer, although 24 arcs are well within the limit on arcs. */
  lemma OverrunExample() returns (arcs: seq<nat>)
    ensures |arcs| == 24 && (forall i :: 0 <= i < |arcs| ==> arcs[i] < WORD32)
    ensures |Dotted(arcs)| == 256 && Print(arcs, 0).Overrun?
  {
    var v, a := 1_000_000_000, Repeated(1_000_000_000, 23);
    arcs := a + [10];
    RepeatedLength(v, 23);
    RepeatedValues(v, 23);
    TenDigits();
    DottedSnoc(a, 10);
    forall k | 0 < k <= |arcs| ensures |Dotted(arcs[..k])| < 254 || 255 < |Dotted(arcs[..k])| {
      if k < |arcs| {
        assert arcs[..k] == a[..k];
        RepeatedLength(v, k);
      } else {
        assert arcs[..k] == arcs;
      }
    }
    OverrunsIff(arcs);
  }

  /** A longer text is not always overrun: two hundred arcs of one digit are dropped on the way. */
  lemma DiscardExample() returns (arcs: seq<nat>)
    ensures |Dotted(arcs)| == 400 && Print(arcs, 0).Discarded?
  {
    hide *;
    arcs := Repeated(1, 200);
    TenDigits();
    RepeatedLength(1, 200);
    RepeatedLength(1, 127);
    assert arcs[..127] == Repeated(1, 127) && |Dotted(arcs[..127])| == 254;
    Noticed(arcs, 127);
    OverrunsIff(arcs);
  }

  lemma Noticed(arcs: seq<nat>, k: nat)
    requires 0 < k <= |arcs| && 254 <= |Dotted(arcs[..k])| <= 255
    ensures !Unnoticed(arcs)
  {
    hide Dotted;
  }

  lemma {:induction false} RepeatedValues(v: nat, n: nat)
    ensures forall i :: 0 <= i < |Repeated(v, n)| ==> Repeated(v, n)[i] == v
  {
    if n == 0 {
    } else {
      RepeatedValues(v, n - 1);
    }
  }

  lemma TenDigits()
    ensures |Decimal(1_000_000_000)| == 10 && |Decimal(10)| == 2 && |Decimal(1)| == 1
  {
    assert |Decimal(10)| == 2;
    assert |Decimal(1_0000)| == 5;
    assert |Decimal(10_000_000)| == 8;
  }

  // ---- Reading ----

  /** The number of digits a text begins with. */
  function DigitRun(s: seq<char>): (n: nat)
    ensures n <= |s| && AllDigits(s[..n]) && (n < |s| ==> !IsDigit(s[n]))
    decreases |s|
  {
    if s != [] && IsDigit(s[0]) then
      var n := DigitRun(s[1..]);
      assert s[..1 + n] == [s[0]] + s[1..][..n];
      1 + n
    else 0
  }

  /** `BuildFromWcsStr` from a place where a number may begin: `arcs` and `text` are what is read and
      copied so far.  Anything but a dot after a number ends the text there; a dot without a number
      after it is dropped; and a dot after too many numbers discards everything. */
  function Scan(rest: seq<char>, arcs: seq<nat>, text: seq<char>): Option<(seq<nat>, seq<char>)>
    requires text != []
    decreases |rest|
  {
    var n := DigitRun(rest);
    if n == 0 then
      if |text| == 1 then None else Some((arcs, text[..|text| - 1]))
    else
      var arcs', text' := arcs + [ReadDigits(0, rest[..n])], text + rest[..n];
      if n == |rest| || rest[n] != '.' then Some((arcs', text'))
      else if |arcs'| > MAXOIDLEN then None
      else Scan(rest[n + 1..], arcs', text' + ['.'])
  }

  /** `BuildFromWcsStr`: the arcs read and the text kept, or nothing.  A text may begin with a dot or
      with one of the digits 1 to 8. */
  function Build(s: seq<char>): Option<(seq<nat>, seq<char>)> {
    if |s| > MAXOIDSTRLEN || s == [] then None
    else if '0' < s[0] < '9' then Scan(s, [], ['.'])
    else if s[0] == '.' then Scan(s[1..], [], ['.'])
    else None
  }

  lemma {:induction false} DigitRunIs(ds: seq<char>, rest: seq<char>)
    requires AllDigits(ds) && (rest != [] ==> !IsDigit(rest[0]))
    ensures DigitRun(ds + rest) == |ds|
    decreases |ds|
  {
    if ds == [] {
      assert ds + rest == rest;
    } else {
      assert (ds + rest)[1..] == ds[1..] + rest;
      DigitRunIs(ds[1..], rest);
    }
  }

  /** What `Scan` does after a number. */
  function AfterNumber(rest: seq<char>, arcs: seq<nat>, text: seq<char>): Option<(seq<nat>, seq<char>)> {
    if rest == [] || rest[0] != '.' then Some((arcs, text))
    else if |arcs| > MAXOIDLEN then None
    else Scan(rest[1..], arcs, text + ['.'])
  }

  /** One number and what follows it. */
  lemma ScanNumber(ds: seq<char>, rest: seq<char>, before: seq<nat>, text: seq<char>)
    requires AllDigits(ds) && ds != [] && (rest != [] ==> !IsDigit(rest[0])) && text != []
    ensures Scan(ds + rest, before, text) == AfterNumber(rest, before + [ReadDigits(0, ds)], text + ds)
  {
    DigitRunIs(ds, rest);
    assert (ds + rest)[..|ds|] == ds;
    if rest != [] {
      assert (ds + rest)[|ds| + 1..] == rest[1..];
    } else {
      assert ds + rest == ds;
    }
  }

  /** Reading what was printed, from the arc after `before` on. */
  lemma {:induction false} ScanDotted(arcs: seq<nat>, before: seq<nat>, text: seq<char>)
    requires arcs != [] && (forall i :: 0 <= i < |arcs| ==> arcs[i] < WORD32)
    requires text != []
    ensures Scan(Dotted(arcs)[1..], before, text)
         == if |arcs| == 1 || |before| + |arcs| <= 51 then Some((before + arcs, text + Dotted(arcs)[1..])) else None
    decreases |arcs|
  {
    hide Scan, Decimal, ReadDigits, AllDigits;
    var ds, rest, arcs' := Decimal(arcs[0]), Dotted(arcs[1..]), before + [arcs[0]];
    DigitsOf(arcs[0]);
    DottedTail(arcs);
    ScanNumber(ds, rest, before, text);
    ReadDecimal(arcs[0]);
    if |arcs| > 1 {
      DottedTail(arcs[1..]);
      if |arcs'| <= MAXOIDLEN {
        ScanDotted(arcs[1..], arcs', text + ds + ['.']);
        assert arcs' + arcs[1..] == before + arcs;
        assert text + ds + ['.'] + rest[1..] == text + (ds + rest);
      }
    } else {
      assert arcs' == before + arcs && ds + rest == ds;
    }
  }

  lemma DigitsOf(n: nat)
    ensures AllDigits(Decimal(n)) && Decimal(n) != []
  {
  }

  lemma DottedTail(arcs: seq<nat>)
    requires arcs != []
    ensures Dotted(arcs) == ['.'] + Dotted(arcs)[1..] && Dotted(arcs)[1..] == Decimal(arcs[0]) + Dotted(arcs[1..])
    ensures |arcs| == 1 ==> Dotted(arcs[1..]) == []
  {
    hide Decimal;
    var ds, rest := Decimal(arcs[0]), Dotted(arcs[1..]);
    assert Dotted(arcs) == ['.'] + ds + rest;
    Dropped(ds, rest);
  }

  lemma Dropped(ds: seq<char>, rest: seq<char>)
    ensures (['.'] + ds + rest)[1..] == ds + rest && ['.'] + ds + rest == ['.'] + (ds + rest)
  {
  }

  /** Text round trip: what is printed is read back, arcs and text alike, exactly if there are at most
      51 arcs and the text is no longer than the reader takes. */
  lemma RoundTrip(arcs: seq<nat>)
    requires arcs != [] && forall i :: 0 <= i < |arcs| ==> arcs[i] < WORD32
    ensures Build(Dotted(arcs)) == Some((arcs, Dotted(arcs))) <==> |arcs| <= 51 && |Dotted(arcs)| <= 255
    ensures |arcs| > 51 ==> Build(Dotted(arcs)).None?
  {
    ScanDotted(arcs, [], ['.']);
    assert Dotted(arcs) == ['.'] + Dotted(arcs)[1..];
    assert [] + arcs == arcs;
  }

  /** Printing and reading back, exactly: the text exists if it has at most 253 characters, and then
      gives the arcs back, and itself, if there are at most 51 arcs. */
  lemma PrintThenBuild(arcs: seq<nat>)
    requires arcs != [] && forall i :: 0 <= i < |arcs| ==> arcs[i] < WORD32
    ensures Print(arcs, 0).Text? <==> |Dotted(arcs)| <= 253
    ensures Print(arcs, 0).Text? ==> (Build(Print(arcs, 0).text) == Some((arcs, Print(arcs, 0).text)) <==> |arcs| <= 51)
  {
    PrintsIff(arcs, 0);
    RoundTrip(arcs);
  }

  // ---- The kept text agrees with the arcs ----

  /** The arcs of a dotted text, however many. */
  function DottedArcs(t: seq<char>): Option<seq<nat>>
    decreases |t|
  {
    if t == [] then Some([])
    else if t[0] != '.' then None
    else
      var n := DigitRun(t[1..]);
      if n == 0 then None
      else
        match DottedArcs(t[1 + n..])
        case None => None
        case Some(arcs) => Some([ReadDigits(0, t[1..][..n])] + arcs)
  }

  lemma FirstNumber(ds: seq<char>, rest: seq<char>)
    requires AllDigits(ds) && ds != [] && (rest != [] ==> rest[0] == '.')
    ensures DottedArcs(['.'] + ds + rest)
         == match DottedArcs(rest) case None => None case Some(arcs) => Some([ReadDigits(0, ds)] + arcs)
  {
    var t := ['.'] + ds + rest;
    assert t[1..] == ds + rest && t[1 + |ds|..] == rest && (ds + rest)[..|ds|] == ds;
    DigitRunIs(ds, rest);
  }

  lemma {:induction false} DottedAgrees(arcs: seq<nat>)
    requires forall i :: 0 <= i < |arcs| ==> arcs[i] < WORD32
    ensures DottedArcs(Dotted(arcs)) == Some(arcs)
  {
    hide DottedArcs;
    if arcs != [] {
      DottedAgrees(arcs[1..]);
      DigitsOf(arcs[0]);
      ReadDecimal(arcs[0]);
      FirstNumber(Decimal(arcs[0]), Dotted(arcs[1..]));
      assert [arcs[0]] + arcs[1..] == arcs;
    } else {
      NoArcs();
    }
  }

  lemma NoArcs()
    ensures DottedArcs([]) == Some([])
  {
  }

  /** A text with arcs, taken apart. */
  lemma FirstArc(t: seq<char>) returns (ds: seq<char>, rest: seq<char>)
    requires DottedArcs(t).Some? && t != []
    ensures AllDigits(ds) && ds != [] && (rest != [] ==> rest[0] == '.') && t == ['.'] + ds + rest
    ensures DottedArcs(rest).Some? && DottedArcs(t).value == [ReadDigits(0, ds)] + DottedArcs(rest).value
  {
    var n := DigitRun(t[1..]);
    ds, rest := t[1..][..n], t[1 + n..];
    assert t == ['.'] + ds + rest;
  }

  lemma {:induction false} OneMoreArc(t: seq<char>, ds: seq<char>)
    requires DottedArcs(t).Some? && AllDigits(ds) && ds != []
    ensures DottedArcs(t + ['.'] + ds) == Some(DottedArcs(t).value + [ReadDigits(0, ds)])
    decreases |t|
  {
    hide DottedArcs;
    NoArcs();
    if t == [] {
      FirstNumber(ds, []);
      assert t + ['.'] + ds == ['.'] + ds + [];
      var v := ReadDigits(0, ds);
      assert [v] + [] == [] + [v];
    } else {
      var ds0, rest := FirstArc(t);
      OneMoreArc(rest, ds);
      FirstNumber(ds0, rest + ['.'] + ds);
      assert t + ['.'] + ds == ['.'] + ds0 + (rest + ['.'] + ds);
      var v0, v, arcs := ReadDigits(0, ds0), ReadDigits(0, ds), DottedArcs(rest).value;
      assert [v0] + (arcs + [v]) == [v0] + arcs + [v];
    }
  }

  lemma {:induction false} ScanAgrees(rest: seq<char>, before: seq<nat>, t: seq<char>)
    requires DottedArcs(t) == Some(before) && Scan(rest, before, t + ['.']).Some?
    ensures var (arcs, text) := Scan(rest, before, t + ['.']).value; DottedArcs(text) == Some(arcs) && arcs != []
    decreases |rest|
  {
    hide DottedArcs, ReadDigits, AllDigits;
    var n := DigitRun(rest);
    if n == 0 {
      assert (t + ['.'])[..|t|] == t;
      var ds, tail := FirstArc(t);
    } else {
      var ds := rest[..n];
      OneMoreArc(t, ds);
      if n < |rest| && rest[n] == '.' {
        ScanAgrees(rest[n + 1..], before + [ReadDigits(0, ds)], t + ['.'] + ds);
      }
    }
  }

  /** The text kept reads as the arcs kept. */
  lemma BuildAgrees(s: seq<char>)
    requires Build(s).Some?
    ensures DottedArcs(Build(s).value.1) == Some(Build(s).value.0)
  {
    NoArcs();
    assert [] + ['.'] == ['.'];
    if s[0] == '.' {
      ScanAgrees(s[1..], [], []);
    } else {
      ScanAgrees(s, [], []);
    }
  }

  lemma {:induction false} DigitsFit(acc: nat, s: seq<char>)
    requires AllDigits(s) && acc < WORD32
    ensures ReadDigits(acc, s) < WORD32
    decreases |s|
  {
    if s == [] {
    } else {
      DigitsFit(ReadDigit(acc, s[0]), s[1..]);
    }
  }

  lemma {:induction false} DottedWords(t: seq<char>)
    requires DottedArcs(t).Some?
    ensures forall i :: 0 <= i < |DottedArcs(t).value| ==> DottedArcs(t).value[i] < WORD32
    decreases |t|
  {
    NoArcs();
    if t == [] {
    } else {
      var ds, rest := FirstArc(t);
      DigitsFit(0, ds);
      DottedWords(rest);
    }
  }
}
