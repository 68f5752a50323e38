/** `CSnmpOid`: an array of arcs and a text made from it on demand.  Whenever there is a text it agrees
    with the arcs. */
module SnmpOid {
  import opened Wrappers
  import opened Words
  import opened OidText

  /** The characters before the terminating zero. */
  function CString(s: seq<char>): seq<char> {
    if s == [] || s[0] == '\0' then [] else [s[0]] + CString(s[1..])
  }

  lemma {:induction false} CStringIs(s: seq<char>, t: seq<char>)
    requires |t| < |s| && s[..|t|] == t && s[|t|] == '\0' && '\0' !in t
    ensures CString(s) == t
    decreases |t|
  {
    if t == [] {
    } else {
      assert s[0] == t[0];
      assert s[1..][..|t| - 1] == t[1..];
      CStringIs(s[1..], t[1..]);
    }
  }

  class Oid {
    var Oids: array?<nat>
    var nOids: nat
    var wcsOid: array?<char>

    ghost predicate Valid()
      reads this, Oids, wcsOid
    {
      && (Oids == null ==> nOids == 0)
      && (Oids != null ==> nOids <= Oids.Length)
      && (forall i :: 0 <= i < |Arcs()| ==> Arcs()[i] < WORD32)
      && (wcsOid != null ==> DottedArcs(CString(wcsOid[..])) == Some(Arcs()))
    }

    function Arcs(): seq<nat>
      reads this, Oids
    {
      if Oids != null && nOids <= Oids.Length then Oids[..nOids] else []
    }

    function Text(): Option<seq<char>>
      reads this, wcsOid
    {
      if wcsOid == null then None else Some(CString(wcsOid[..]))
    }

    constructor ()
      ensures Valid() && Oids == null && wcsOid == null && Arcs() == []
    {
      Oids, nOids, wcsOid := null, 0, null;
    }

    /** A copy shares no array with the original. */
    constructor Copy(copyOid: Oid)
      requires copyOid.Valid()
      ensures Valid() && Arcs() == copyOid.Arcs()
      ensures Text() == (if copyOid.Oids == null then None else copyOid.Text())
      ensures (Oids != null ==> fresh(Oids)) && (wcsOid != null ==> fresh(wcsOid))
    {
      hide DottedArcs, CString;
      var oids: array?<nat>, text: array?<char>, n := null, null, 0;
      if copyOid.Oids != null {
        n := copyOid.nOids;
        oids := CopyArcs(copyOid.Oids, n);
        if copyOid.wcsOid != null {
          text := CopyText(copyOid.wcsOid);
        }
      }
      Oids, nOids, wcsOid := oids, n, text;
      new;
      assert Arcs() == copyOid.Arcs();
    }

    /** Lines 151-167: the arcs of the other object, which may be this one, are added at the end, and the
        text is dropped. */
    method Add(addOid: Oid)
      requires Valid() && addOid.Valid()
      modifies this
      ensures Valid() && Arcs() == old(Arcs()) + old(addOid.Arcs())
      ensures if old(addOid.nOids) == 0 then unchanged(this) else wcsOid == null && fresh(Oids)
    {
      if addOid.nOids == 0 {
        return;
      }
      wcsOid := null;
      var newOid := new nat[nOids + addOid.nOids];
      forall i | 0 <= i < nOids {
        newOid[i] := Oids[i];
      }
      forall i | 0 <= i < addOid.nOids {
        newOid[nOids + i] := addOid.Oids[i];
      }
      assert newOid[..] == old(Arcs()) + old(addOid.Arcs());
      nOids := nOids + addOid.nOids;
      Oids := newOid;
    }

    /** Lines 5-42: the text of the arcs, if there is none yet.  A text of 254 characters or more is
        dropped again, or was written beyond the buffer (`overrun`) before that could be noticed. */
    method MakeWcsStr() returns (overrun: bool)
      requires Valid()
      modifies this`wcsOid
      ensures Valid()
      ensures if Oids == null || old(wcsOid) != null then !overrun && wcsOid == old(wcsOid)
              else Text() == (var p := Print(Arcs(), 0); if p.Text? then Some(p.text) else None) && overrun == Print(Arcs(), 0).Overrun?
      ensures wcsOid != null && old(wcsOid) == null ==> fresh(wcsOid)
    {
      hide Print, Dotted, Decimal, DottedArcs, CString;
      if Oids == null || wcsOid != null {
        return false;
      }
      var buffer := new char[MAXOIDSTRLEN + 1];
      buffer[0] := '.';
      var p := 1;
      ghost var arcs := Arcs();
      NoneDotted(arcs);
      for i := 0 to nOids
        invariant wcsOid == null && Arcs() == arcs && fresh(buffer) && buffer.Length == MAXOIDSTRLEN + 1
        invariant 1 <= p < MAXOIDSTRLEN && buffer[..p] == Dotted(arcs[..i]) + ['.']
        invariant Print(arcs, 0) == Print(arcs, i)
      {
        var wcsBuf := Decimal(Oids[i]);
        OneMorePrinted(arcs, i);
        if p + |wcsBuf| > MAXOIDSTRLEN {
          return true;
        }
        p := AppendNumber(buffer, p, wcsBuf);
        if p >= MAXOIDSTRLEN {
          return false;
        }
      }
      assert Arcs()[..nOids] == Arcs();
      buffer[p - 1] := '\0';
      wcsOid, overrun := buffer, false;
      TextPrinted(buffer[..], Arcs(), p - 1);
    }

    /** Lines 78-85 of snmpOid.h: the text, made if there is none. */
    method ToText() returns (r: array?<char>, overrun: bool)
      requires Valid()
      modifies this`wcsOid
      ensures Valid() && r == wcsOid && (old(wcsOid) != null ==> r == old(wcsOid))
      ensures Oids != null && old(wcsOid) == null ==>
                && overrun == Print(Arcs(), 0).Overrun? && (r != null <==> |Dotted(Arcs())| <= 253)
                && (r != null ==> Text() == Some(Dotted(Arcs())))
      ensures Oids == null ==> r == old(wcsOid) && !overrun
    {
      overrun := false;
      if wcsOid == null {
        PrintsIff(Arcs(), 0);
        overrun := MakeWcsStr();
      }
      r := wcsOid;
    }

    /** Lines 87-91 of snmpOid.h, where the test is the other way round: a text that there is not is never
        made. */
    method ToConstText() returns (r: array?<char>)
      requires Valid()
      modifies this`wcsOid
      ensures Valid() && r == wcsOid == old(wcsOid)
    {
      if wcsOid != null {
        var overrun := MakeWcsStr();
      }
      r := wcsOid;
    }

    /** Lines 44-149: arcs and text from a dotted text; the text stays within its array, the arcs in
        theirs.  Line 47 deletes an old text and leaves the pointer to it (`dangling`); if the new text cannot
        be begun, line 80 deletes it again, after which nothing is promised. */
    method BuildFromWcsStr(wcsNewOid: Option<seq<char>>) returns (freedTwice: bool)
      requires wcsNewOid.Some? ==> '\0' !in wcsNewOid.value
      modifies this
      ensures freedTwice <==> old(wcsOid) != null && wcsNewOid.Some? && NoStart(wcsNewOid.value)
      ensures !freedTwice ==>
                && Valid()
                && match if wcsNewOid.None? then None else Build(wcsNewOid.value)
                   case None => Oids == null && nOids == 0 && wcsOid == null
                   case Some(r) => Oids != null && fresh(Oids) && fresh(wcsOid) && Arcs() == r.0 && Text() == Some(r.1)
    {
      var dangling := wcsOid != null;
      freedTwice := false;
      if wcsNewOid.None? {
        Oids, nOids, wcsOid := null, 0, null;
        return;
      }
      var src := wcsNewOid.value;
      hide Scan, DottedArcs, CString;
      if |src| > MAXOIDSTRLEN {
        Oids, nOids, wcsOid := null, 0, null;
        return;
      }
      var start := 0;
      if At(src, 0) > '0' && At(src, 0) < '9' {
        start := 0;
      } else if At(src, 0) == '.' {
        start := 1;
      } else {
        freedTwice := dangling;
        Oids, nOids, wcsOid := null, 0, null;
        return;
      }
      ReadBack(src);
      assert src[0..] == src;
      Oids, nOids, wcsOid := ReadArcs(src, start);
    }

    /** The constructor from a text (lines 73-76 of snmpOid.h) has no old text to delete. */
    constructor FromText(wcsNewOid: seq<char>)
      requires '\0' !in wcsNewOid
      ensures Valid()
      ensures match Build(wcsNewOid)
              case None => Arcs() == [] && Text() == None
              case Some(r) => Arcs() == r.0 && Text() == Some(r.1)
    {
      Oids, nOids, wcsOid := null, 0, null;
      new;
      var freedTwice := BuildFromWcsStr(Some(wcsNewOid));
    }

    /** `operator ==`: equality of the arcs. */
    method Equals(compOid: Oid) returns (same: bool)
      requires Valid() && compOid.Valid()
      ensures same == (Arcs() == compOid.Arcs())
    {
      if nOids != compOid.nOids {
        assert |Arcs()| != |compOid.Arcs()|;
        return false;
      }
      for i := 0 to nOids
        invariant Arcs()[..i] == compOid.Arcs()[..i]
      {
        if Oids[i] != compOid.Oids[i] {
          assert Arcs()[i] != compOid.Arcs()[i];
          return false;
        }
      }
      assert Arcs()[..nOids] == Arcs() && compOid.Arcs()[..nOids] == compOid.Arcs();
      return true;
    }
  }

  /** A text that is not too long and cannot be begun: it has neither a dot nor one of the digits 1 to 8 in
      front. */
  predicate NoStart(s: seq<char>) {
    |s| <= 255 && (s == [] || !(s[0] == '.' || '0' < s[0] < '9'))
  }

  /** An object that is given the text ".1.3" and then "x" deletes the first text twice. */
  method TextDeletedTwice() returns (freedTwice: bool)
    ensures freedTwice
  {
    var oid := new Oid();
    assert Dotted([1, 3]) == ".1.3" by { TwoArcs(); }
    RoundTrip([1, 3]);
    var once := oid.BuildFromWcsStr(Some(".1.3"));
    freedTwice := oid.BuildFromWcsStr(Some("x"));
  }

  lemma TwoArcs()
    ensures Dotted([1, 3]) == ".1.3"
  {
    assert Decimal(1) == "1" && Decimal(3) == "3";
    assert [1, 3][1..] == [3] && [3][1..] == [];
    assert Dotted([3]) == ".3";
  }

  /** The character at a position, or the terminating zero. */
  function At(s: seq<char>, i: nat): char
    requires i <= |s|
  {
    if i < |s| then s[i] else '\0'
  }

  method CopyArcs(from: array<nat>, n: nat) returns (to: array<nat>)
    requires n <= from.Length
    ensures fresh(to) && to.Length == n && to[..] == from[..n]
  {
    to := new nat[n];
    forall i | 0 <= i < n {
      to[i] := from[i];
    }
  }

  method CopyText(from: array<char>) returns (to: array<char>)
    ensures fresh(to) && CString(to[..]) == CString(from[..])
  {
    ghost var source := from[..];
    var t := CString(from[..]);
    NoZero(source);
    to := new char[|t| + 1];
    forall i | 0 <= i < |t| {
      to[i] := t[i];
    }
    to[|t|] := '\0';
    assert to[..][..|t|] == t;
    CStringIs(to[..], t);
    assert from[..] == source;
  }

  lemma NoneDotted(arcs: seq<nat>)
    ensures Dotted(arcs[..0]) == []
  {
  }

  lemma OneMorePrinted(arcs: seq<nat>, i: nat)
    requires i < |arcs|
    ensures var t := Dotted(arcs[..i]) + ['.'] + Decimal(arcs[i]);
            && Dotted(arcs[..i + 1]) == t
            && Print(arcs, i) == if |t| > MAXOIDSTRLEN then Overrun
                                 else if |t| + 1 >= MAXOIDSTRLEN then Discarded
                                 else Print(arcs, i + 1)
  {
    assert arcs[..i + 1] == arcs[..i] + [arcs[i]];
    DottedSnoc(arcs[..i], arcs[i]);
  }

  /** Appends a number and a dot (lines 25-30). */
  method AppendNumber(buffer: array<char>, p: nat, number: seq<char>) returns (p': nat)
    requires p + |number| < buffer.Length
    modifies buffer
    ensures p' == p + |number| + 1 && buffer[..p'] == old(buffer[..p]) + number + ['.']
  {
    forall k | 0 <= k < |number| {
      buffer[p + k] := number[k];
    }
    buffer[p + |number|] := '.';
    p' := p + |number| + 1;
    assert buffer[..p] == old(buffer[..p]);
    assert buffer[p..p + |number|] == number;
  }

  /** The inner loop of `BuildFromWcsStr` (lines 94-102): copies a run of digits and reads it. */
  method CopyDigits(src: seq<char>, pSrc: nat, text: array<char>, pDst: nat) returns (tmpVal: nat, n: nat)
    requires pSrc <= |src| && pDst + (|src| - pSrc) <= text.Length
    modifies text
    ensures n == DigitRun(src[pSrc..]) && tmpVal == ReadDigits(0, src[pSrc..][..n])
    ensures text[..pDst + n] == old(text[..pDst]) + src[pSrc..][..n]
  {
    tmpVal, n := 0, 0;
    while '0' <= At(src, pSrc + n) <= '9'
      invariant pSrc + n <= |src| && AllDigits(src[pSrc..][..n])
      invariant tmpVal == ReadDigits(0, src[pSrc..][..n])
      invariant text[..pDst + n] == old(text[..pDst]) + src[pSrc..][..n]
      decreases |src| - n
    {
      var c := src[pSrc + n];
      assert src[pSrc..][..n + 1] == src[pSrc..][..n] + [c];
      ReadDigitsSnoc(0, src[pSrc..][..n], c);
      tmpVal := ReadDigit(tmpVal, c);
      text[pDst + n] := c;
      n := n + 1;
    }
    assert src[pSrc..] == src[pSrc..][..n] + src[pSrc + n..];
    DigitRunIs(src[pSrc..][..n], src[pSrc + n..]);
  }

  /** The outer loop of `BuildFromWcsStr` (lines 67-68 and 85-148), from behind the first dot. */
  method ReadArcs(src: seq<char>, start: nat) returns (oids: array?<nat>, n: nat, text: array?<char>)
    requires '\0' !in src && start <= 1 && start <= |src|
    ensures match Scan(src[start..], [], ['.'])
            case None => oids == null && n == 0 && text == null
            case Some(r) => oids != null && text != null && fresh(oids) && fresh(text) && n <= oids.Length
                            && oids[..n] == r.0 && CString(text[..]) == r.1
  {
    hide CString, DigitRun, ReadDigits, AllDigits, Scan, AfterNumber, At;
    var strLen := |src| + 1 - start;
    var arcs, wcs := new nat[(|src| + 1) / 2], new char[strLen + 1];
    wcs[0] := '.';
    var pSrc, pDst := start, 1;
    n := 0;
    assert wcs[..1] == ['.'] && arcs[..0] == [];
    while true
      invariant 1 <= pDst && pDst + start == pSrc + 1 && pSrc <= |src| && fresh(arcs) && fresh(wcs)
      invariant 2 * n < pDst && wcs[pDst - 1] == '.' && '\0' !in wcs[..pDst]
      invariant Scan(src[start..], [], ['.']) == Scan(src[pSrc..], arcs[..n], wcs[..pDst])
      decreases |src| - pSrc
    {
      ghost var before := arcs[..n];
      var tmpVal, digits := NextNumber(src, pSrc, wcs, pDst, before);
      pSrc, pDst := pSrc + digits, pDst + digits;
      ghost var t := wcs[..pDst];
      if wcs[pDst - 1] != '.' {
        arcs[n] := tmpVal;
        n := n + 1;
        assert arcs[..n] == before + [tmpVal];
        AfterNumberAt(src, pSrc, before + [tmpVal], t);
        if At(src, pSrc) != '.' {
          Terminate(wcs, pDst);
          return arcs, n, wcs;
        }
        wcs[pDst] := '.';
        pSrc, pDst := pSrc + 1, pDst + 1;
        assert wcs[..pDst] == t + ['.'];
      } else {
        if pDst == 1 {
          return null, 0, null;
        }
        assert wcs[..pDst - 1] == t[..|t| - 1];
        Terminate(wcs, pDst - 1);
        return arcs, n, wcs;
      }
      if n > MAXOIDLEN {
        return null, 0, null;
      }
    }
  }

  lemma AfterNumberAt(src: seq<char>, p: nat, arcs: seq<nat>, text: seq<char>)
    requires p <= |src|
    ensures At(src, p) != '.' ==> AfterNumber(src[p..], arcs, text) == Some((arcs, text))
    ensures At(src, p) == '.' ==>
              p < |src| && AfterNumber(src[p..], arcs, text) == if |arcs| > MAXOIDLEN then None else Scan(src[p + 1..], arcs, text + ['.'])
  {
    hide Scan;
    if p < |src| {
      assert src[p..][1..] == src[p + 1..];
    }
  }

  /** A number, if there is one, and where that leads. */
  method NextNumber(src: seq<char>, pSrc: nat, wcs: array<char>, pDst: nat, ghost before: seq<nat>) returns (tmpVal: nat, n: nat)
    requires pSrc <= |src| && 1 <= pDst && pDst + (|src| - pSrc) <= wcs.Length && wcs[pDst - 1] == '.'
    requires '\0' !in src && '\0' !in wcs[..pDst]
    modifies wcs
    ensures pSrc + n <= |src| && (wcs[pDst + n - 1] == '.' <==> n == 0) && '\0' !in wcs[..pDst + n]
    ensures Scan(src[pSrc..], before, old(wcs[..pDst]))
         == if n == 0 then (if pDst == 1 then None else Some((before, wcs[..pDst][..pDst - 1])))
            else AfterNumber(src[pSrc + n..], before + [tmpVal], wcs[..pDst + n])
  {
    hide Scan, AfterNumber, DigitRun, ReadDigits;
    ghost var t, rest := wcs[..pDst], src[pSrc..];
    tmpVal, n := CopyDigits(src, pSrc, wcs, pDst);
    ScanStep(rest, before, t);
    assert rest[n..] == src[pSrc + n..];
    assert n == 0 ==> t + rest[..n] == t;
    assert n > 0 ==> wcs[..pDst + n][pDst + n - 1] == rest[n - 1];
  }

  method Terminate(text: array<char>, n: nat)
    requires n < text.Length && '\0' !in text[..n]
    modifies text
    ensures CString(text[..]) == old(text[..n])
  {
    text[n] := '\0';
    assert text[..n] == old(text[..n]);
    CStringIs(text[..], text[..n]);
  }

  /** One round of the reader. */
  lemma ScanStep(rest: seq<char>, arcs: seq<nat>, text: seq<char>)
    requires text != []
    ensures var n := DigitRun(rest);
            && n <= |rest| && AllDigits(rest[..n]) && (forall i :: 0 <= i < n ==> IsDigit(rest[i]))
            && Scan(rest, arcs, text)
            == if n == 0 then (if |text| == 1 then None else Some((arcs, text[..|text| - 1])))
               else AfterNumber(rest[n..], arcs + [ReadDigits(0, rest[..n])], text + rest[..n])
  {
  }

  /** What is read agrees with the text kept, and fits 32 bits. */
  lemma ReadBack(s: seq<char>)
    ensures Build(s).Some? ==> DottedArcs(Build(s).value.1) == Some(Build(s).value.0)
    ensures Build(s).Some? ==> forall i :: 0 <= i < |Build(s).value.0| ==> Build(s).value.0[i] < WORD32
  {
    if Build(s).Some? {
      BuildAgrees(s);
      DottedWords(Build(s).value.1);
    }
  }

  lemma TextPrinted(buffer: seq<char>, arcs: seq<nat>, n: nat)
    requires n < |buffer| && buffer[n] == '\0' && buffer[..n] == Dotted(arcs)
    requires forall i :: 0 <= i < |arcs| ==> arcs[i] < WORD32
    ensures CString(buffer) == Dotted(arcs) && DottedArcs(Dotted(arcs)) == Some(arcs)
    ensures Print(arcs, |arcs|) == Printed.Text(Dotted(arcs))
  {
    DottedChars(arcs);
    CStringIs(buffer, Dotted(arcs));
    DottedAgrees(arcs);
  }

  lemma {:induction false} NoZero(s: seq<char>)
    ensures '\0' !in CString(s)
    decreases |s|
  {
    if s == [] {
    } else {
      NoZero(s[1..]);
    }
  }
}
