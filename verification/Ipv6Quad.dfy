/**
 The IPv4 ending of an IPv6 text: four decimal numbers in place of the last two groups.
 */
module Ipv6Quad {
  import opened Numeral
  import opened Ipv6Text

  /** The finished numbers and the digits of the open one. */
  datatype Octets = Octets(octets: seq<string>, cur: string)

  function DottedLead(octets: seq<string>): string {
    if octets == [] then "" else DottedLead(octets[..|octets| - 1]) + octets[|octets| - 1] + "."
  }

  lemma {:induction false} DottedSplit(quad: seq<string>, k: nat)
    requires k < |quad|
    ensures DottedTail(quad, 0) == DottedLead(quad[..k]) + DottedTail(quad, k)
  {
    if k > 0 {
      DottedSplit(quad, k - 1);
      assert quad[..k][..k - 1] == quad[..k - 1];
      var a, g, t := DottedLead(quad[..k - 1]), quad[k - 1], DottedTail(quad, k);
      assert a + (g + "." + t) == (a + g + ".") + t;
    } else {
      assert quad[..0] == [];
    }
  }

  /** The digits can still become an octet. */
  predicate OpenOctet(cur: string) {
    IsNumeral(Decimal, cur) && Value(Decimal, cur) <= 255 && (|cur| <= 1 || cur[0] != '0')
  }

  /** What was read since `start` is the text of what is known. */
  ghost predicate QuadSound(name: string, start: int, i: int, q: Octets) {
    && 0 <= start <= i <= |name| && name[start..i] == DottedLead(q.octets) + q.cur && |q.octets| < 4
    && (forall k :: 0 <= k < |q.octets| ==> ValidOctet(q.octets[k])) && OpenOctet(q.cur)
  }

  /** The form `f` of the whole text has the groups of `s` and continues `q`. */
  ghost predicate QuadAgrees(f: Form, name: string, i: int, s: Scan, q: Octets) {
    && 0 <= i <= |name| && f.groups == s.groups && f.gap == s.gap && |q.octets| < |f.quad|
    && q.octets == f.quad[..|q.octets|] && q.cur + name[i..] == DottedTail(f.quad, |q.octets|)
  }

  ghost predicate QuadAgreesIfForm(f: Form, name: string, i: int, s: Scan, q: Octets) {
    Valid(f) && Text(f) == name ==> QuadAgrees(f, name, i, s, q)
  }

  ghost predicate QuadDetermined(name: string, i: int, s: Scan, q: Octets) {
    forall f :: QuadAgreesIfForm(f, name, i, s, q)
  }

  // ---------------------------------------------------------------- the first '.'

  lemma {:induction false} DotOf(f: Form, name: string, i: int, s: Scan)
    requires Valid(f) && Continues(f, name, i, s) && IsNumeral(Hex, s.cur) && i < |name| && name[i] == '.'
    requires |s.cur| <= i && name[i - |s.cur|..i] == s.cur
    ensures s.cur != "" && (s.groups != [] || s.gap != -1)
    ensures QuadAgrees(f, name, i - |s.cur|, s, Octets([], ""))
  {
    var k, start := |s.groups|, i - |s.cur|;
    InToken(f, name, i, s);
    WithinEnd(Hex, s.cur, name[i..], Token(f, k), AfterToken(f, k));
    TokenTail(f, k);
    assert k == |f.groups| && f.quad != [];
    assert f.groups == f.groups[..k];
    assert "" + name[start..] == s.cur + name[i..];
    assert f.quad[..0] == [];
  }

  /** A '.' in a group: the group is read again as the first decimal number. */
  lemma {:induction false} DotStep(name: string, i: int, s: Scan)
    requires Sound(name, i, s) && Determined(name, i, s) && i < |name| && name[i] == '.'
    ensures |s.cur| <= i && name[i - |s.cur|..i] == s.cur
    ensures if s.cur == "" || (s.groups == [] && s.gap == -1) then NoForm(name)
            else QuadSound(name, i - |s.cur|, i - |s.cur|, Octets([], "")) && QuadDetermined(name, i - |s.cur|, s, Octets([], ""))
  {
    var lead, start := Lead(s.groups, s.gap), i - |s.cur|;
    assert |name[..i]| == |lead| + |s.cur|;
    assert name[start..i] == name[..i][|lead|..] == s.cur;
    forall f | Valid(f) && Text(f) == name
      ensures s.cur != "" && (s.groups != [] || s.gap != -1) && QuadAgrees(f, name, start, s, Octets([], ""))
    {
      assert AgreesIfForm(f, name, i, s);
      Started(f, name, i, s);
      DotOf(f, name, i, s);
    }
    assert name[start..start] == "" + "";
  }

  /** The first decimal number starts right after a ':'. */
  lemma {:induction false} ColonBefore(name: string, i: int, s: Scan)
    requires Sound(name, i, s) && (s.groups != [] || s.gap != -1)
    ensures 0 < i - |s.cur| <= i && name[i - |s.cur| - 1] == ':'
    ensures forall j :: i - |s.cur| <= j < i ==> name[j] != ':'
  {
    var lead := Lead(s.groups, s.gap);
    LeadEndsInColon(s.groups, s.gap);
    assert name[..i][|lead| - 1] == ':';
    forall j | i - |s.cur| <= j < i ensures name[j] != ':' {
      assert name[j] == name[..i][j] == s.cur[j - |lead|];
    }
  }

  // ---------------------------------------------------------------- the steps

  function AfterOctet(quad: seq<string>, k: nat): string
    requires k < |quad|
  {
    if k + 1 == |quad| then "" else "." + DottedTail(quad, k + 1)
  }

  lemma {:induction false} InOctet(f: Form, name: string, i: int, s: Scan, q: Octets)
    requires Valid(f) && QuadAgrees(f, name, i, s, q) && IsNumeral(Decimal, q.cur)
    ensures Within(Decimal, q.cur, name[i..], f.quad[|q.octets|], AfterOctet(f.quad, |q.octets|))
    ensures |f.quad| == 4 && ValidOctet(f.quad[|q.octets|])
  {
    var k := |q.octets|;
    var o := f.quad[k];
    assert ValidOctet(o);
    if k + 1 < |f.quad| {
      var t := DottedTail(f.quad, k + 1);
      assert o + "." + t == o + ("." + t);
    } else {
      assert o + "" == o;
    }
    WithinToken(Decimal, q.cur, name[i..], o, AfterOctet(f.quad, k));
  }

  predicate DigitFits(cur: string, c: char)
    requires IsNumeral(Decimal, cur)
  {
    && (cur == "" || Value(Decimal, cur) != 0) && Digit(Decimal, c) >= 0
    && 10 * Value(Decimal, cur) + Digit(Decimal, c) <= 255
  }

  lemma {:induction false} OctetDigitOf(f: Form, name: string, i: int, s: Scan, q: Octets)
    requires Valid(f) && QuadAgrees(f, name, i, s, q) && OpenOctet(q.cur) && i < |name| && name[i] != '.' && name[i] != ':'
    ensures DigitFits(q.cur, name[i])
  {
    var o := f.quad[|q.octets|];
    InOctet(f, name, i, s, q);
    assert name[i..][0] == name[i];
    WithinDigit(Decimal, q.cur, name[i..], o, AfterOctet(f.quad, |q.octets|));
    ValueSnoc(Decimal, q.cur, name[i]);
    if q.cur != "" {
      assert q.cur[0] == o[0];
      LeadingDigit(q.cur);
    }
  }

  lemma {:induction false} OctetCharacterTaken(f: Form, name: string, i: int, s: Scan, q: Octets)
    requires QuadAgrees(f, name, i, s, q) && i < |name|
    ensures QuadAgrees(f, name, i + 1, s, q.(cur := q.cur + [name[i]]))
  {
    assert q.cur + [name[i]] + name[i + 1..] == q.cur + name[i..];
  }

  /** No form goes on with ':' in the IPv4 ending. */
  lemma {:induction false} ColonInOctet(f: Form, name: string, i: int, s: Scan, q: Octets)
    requires Valid(f) && QuadAgrees(f, name, i, s, q) && OpenOctet(q.cur) && i < |name|
    ensures name[i] != ':'
  {
    var k := |q.octets|;
    InOctet(f, name, i, s, q);
    var rest := f.quad[k][|q.cur|..] + AfterOctet(f.quad, k);
    assert name[i] == rest[0];
    if |q.cur| < |f.quad[k]| {
      assert rest[0] == f.quad[k][|q.cur|];
    } else {
      assert rest[0] == AfterOctet(f.quad, k)[0];
    }
  }

  lemma {:induction false} OctetGrows(cur: string, c: char)
    requires OpenOctet(cur) && DigitFits(cur, c)
    ensures OpenOctet(cur + [c])
  {
    ValueSnoc(Decimal, cur, c);
    if |cur| == 1 {
      assert Value(Decimal, cur) == 10 * Value(Decimal, cur[..0]) + Digit(Decimal, cur[0]);
      assert Value(Decimal, cur[..0]) == 0;
    }
  }

  lemma {:induction false} OctetDigitSound(name: string, start: int, i: int, q: Octets)
    requires QuadSound(name, start, i, q) && i < |name| && DigitFits(q.cur, name[i])
    ensures QuadSound(name, start, i + 1, q.(cur := q.cur + [name[i]]))
  {
    OctetGrows(q.cur, name[i]);
    assert name[start..i + 1] == name[start..i] + [name[i]];
    var a := DottedLead(q.octets);
    assert a + q.cur + [name[i]] == a + (q.cur + [name[i]]);
  }

  lemma {:induction false} OctetDigitStep(name: string, start: int, i: int, s: Scan, q: Octets)
    requires QuadSound(name, start, i, q) && QuadDetermined(name, i, s, q) && i < |name| && name[i] != '.'
    ensures if !DigitFits(q.cur, name[i]) then NoForm(name)
            else QuadSound(name, start, i + 1, q.(cur := q.cur + [name[i]])) && QuadDetermined(name, i + 1, s, q.(cur := q.cur + [name[i]]))
  {
    forall f | Valid(f) && Text(f) == name
      ensures DigitFits(q.cur, name[i]) && QuadAgrees(f, name, i + 1, s, q.(cur := q.cur + [name[i]]))
    {
      assert QuadAgreesIfForm(f, name, i, s, q);
      ColonInOctet(f, name, i, s, q);
      OctetDigitOf(f, name, i, s, q);
      OctetCharacterTaken(f, name, i, s, q);
    }
    if DigitFits(q.cur, name[i]) {
      OctetDigitSound(name, start, i, q);
    }
  }

  /** At a '.' the parser is at the end of a decimal number. */
  lemma {:induction false} AtDot(f: Form, name: string, i: int, s: Scan, q: Octets)
    requires Valid(f) && QuadAgrees(f, name, i, s, q) && OpenOctet(q.cur) && i < |name| && name[i] == '.'
    ensures |f.quad| == 4 && |q.octets| < 3 && q.cur == f.quad[|q.octets|] && q.cur != ""
    ensures name[i..] == "." + DottedTail(f.quad, |q.octets| + 1)
  {
    var k := |q.octets|;
    InOctet(f, name, i, s, q);
    WithinEnd(Decimal, q.cur, name[i..], f.quad[k], AfterOctet(f.quad, k));
  }

  lemma {:induction false} OctetDotOf(f: Form, name: string, i: int, s: Scan, q: Octets)
    requires Valid(f) && QuadAgrees(f, name, i, s, q) && OpenOctet(q.cur) && i < |name| && name[i] == '.'
    ensures q.cur != "" && |q.octets| < 3
    ensures QuadAgrees(f, name, i + 1, s, Octets(q.octets + [q.cur], ""))
  {
    var k := |q.octets|;
    AtDot(f, name, i, s, q);
    assert name[i + 1..] == name[i..][1..];
    assert "" + name[i + 1..] == DottedTail(f.quad, k + 1);
    assert f.quad[..k + 1] == f.quad[..k] + [f.quad[k]];
  }

  lemma {:induction false} OctetDotStep(name: string, start: int, i: int, s: Scan, q: Octets)
    requires QuadSound(name, start, i, q) && QuadDetermined(name, i, s, q) && i < |name| && name[i] == '.'
    ensures var q' := Octets(q.octets + [q.cur], "");
            if q.cur == "" || |q.octets| == 3 then NoForm(name)
            else QuadSound(name, start, i + 1, q') && QuadDetermined(name, i + 1, s, q')
  {
    var q' := Octets(q.octets + [q.cur], "");
    forall f | Valid(f) && Text(f) == name
      ensures q.cur != "" && |q.octets| < 3 && QuadAgrees(f, name, i + 1, s, q')
    {
      assert QuadAgreesIfForm(f, name, i, s, q);
      OctetDotOf(f, name, i, s, q);
    }
    if q.cur != "" && |q.octets| < 3 {
      assert name[start..i + 1] == name[start..i] + ".";
      assert q'.octets[..|q.octets|] == q.octets;
      assert DottedLead(q'.octets) + "" == DottedLead(q'.octets);
    }
  }

  // ---------------------------------------------------------------- the end

  function FinishedQuad(s: Scan, q: Octets): Form {
    Form(s.groups, s.gap, q.octets + [q.cur])
  }

  predicate CanFinishQuad(s: Scan, q: Octets) {
    && q.cur != "" && |q.octets| == 3 && |s.groups| <= 6
    && (s.gap == -1 ==> |s.groups| == 6)
  }

  lemma {:induction false} QuadEndOf(f: Form, name: string, s: Scan, q: Octets)
    requires Valid(f) && QuadAgrees(f, name, |name|, s, q) && OpenOctet(q.cur)
    ensures f == FinishedQuad(s, q) && CanFinishQuad(s, q)
  {
    var k := |q.octets|;
    InOctet(f, name, |name|, s, q);
    WithinEnd(Decimal, q.cur, name[|name|..], f.quad[k], AfterOctet(f.quad, k));
    assert f.quad == f.quad[..k] + [f.quad[k]];
  }

  lemma {:induction false} QuadEndSound(name: string, start: int, s: Scan, q: Octets)
    requires QuadSound(name, start, |name|, q) && CanFinishQuad(s, q) && Sound(name, start, s.(cur := ""))
    ensures Valid(FinishedQuad(s, q)) && Text(FinishedQuad(s, q)) == name
  {
    var f, k := FinishedQuad(s, q), |s.groups|;
    DottedSplit(f.quad, 3);
    assert f.quad[..3] == q.octets;
    LeadTail(f, k);
    assert f.groups[..k] == s.groups;
    assert name == name[..start] + name[start..|name|];
    assert Lead(s.groups, s.gap) + "" == Lead(s.groups, s.gap);
  }

  lemma {:induction false} QuadEndStep(name: string, start: int, s: Scan, q: Octets)
    requires QuadSound(name, start, |name|, q) && QuadDetermined(name, |name|, s, q) && Sound(name, start, s.(cur := ""))
    ensures if CanFinishQuad(s, q) then Denotes(name, FinishedQuad(s, q)) else NoForm(name)
  {
    forall f | Valid(f) && Text(f) == name ensures f == FinishedQuad(s, q) && CanFinishQuad(s, q) {
      assert QuadAgreesIfForm(f, name, |name|, s, q);
      QuadEndOf(f, name, s, q);
    }
    if CanFinishQuad(s, q) {
      QuadEndSound(name, start, s, q);
    }
  }

  // ---------------------------------------------------------------- every text has at most one form

  /** The text has one form or none. */
  ghost predicate Decided(name: string) {
    NoForm(name) || exists f :: Denotes(name, f)
  }

  lemma {:induction false} QuadDecided(name: string, start: int, i: int, s: Scan, q: Octets)
    requires QuadSound(name, start, i, q) && QuadDetermined(name, i, s, q) && Sound(name, start, s.(cur := ""))
    ensures Decided(name)
    decreases |name| - i
  {
    if i == |name| {
      QuadEndStep(name, start, s, q);
    } else if name[i] == '.' {
      OctetDotStep(name, start, i, s, q);
      if q.cur != "" && |q.octets| != 3 {
        QuadDecided(name, start, i + 1, s, Octets(q.octets + [q.cur], ""));
      }
    } else {
      OctetDigitStep(name, start, i, s, q);
      if DigitFits(q.cur, name[i]) {
        QuadDecided(name, start, i + 1, s, q.(cur := q.cur + [name[i]]));
      }
    }
  }

  lemma {:induction false} LeadSound(name: string, i: int, s: Scan)
    requires Sound(name, i, s)
    ensures |s.cur| <= i && Sound(name, i - |s.cur|, s.(cur := ""))
  {
    var lead := Lead(s.groups, s.gap);
    assert |name[..i]| == |lead| + |s.cur|;
    assert name[..|lead|] == name[..i][..|lead|] == lead;
    assert lead + "" == lead;
  }

  lemma NoneDecided(name: string)
    requires NoForm(name)
    ensures Decided(name)
  {}

  lemma {:induction false} DotDecided(name: string, i: int, s: Scan)
    requires Sound(name, i, s) && Determined(name, i, s) && 0 <= i < |name| && name[i] == '.'
    requires i == 0 ==> s == Scan([], -1, "")
    ensures Decided(name)
  {
    if s.cur == "" || (s.groups == [] && s.gap == -1) {
      DotStep(name, i, s);
      NoneDecided(name);
    } else {
      var start := DotOpens(name, i, s);
      QuadDecided(name, start, start, s, Octets([], ""));
    }
  }

  lemma {:induction false} DotOpens(name: string, i: int, s: Scan) returns (start: int)
    requires Sound(name, i, s) && Determined(name, i, s) && 0 <= i < |name| && name[i] == '.'
    requires s.cur != "" && (s.groups != [] || s.gap != -1)
    ensures QuadSound(name, start, start, Octets([], "")) && QuadDetermined(name, start, s, Octets([], ""))
    ensures Sound(name, start, s.(cur := ""))
  {
    DotStep(name, i, s);
    LeadSound(name, i, s);
    start := i - |s.cur|;
  }

  lemma {:induction false} GroupsDecided(name: string, i: int, s: Scan)
    requires Sound(name, i, s) && Determined(name, i, s) && (i == 0 ==> s == Scan([], -1, ""))
    ensures Decided(name)
    decreases |name| - i
  {
    if i == |name| {
      EndStep(name, s);
    } else if name[i] == '.' {
      DotDecided(name, i, s);
    } else if name[i] != ':' {
      DigitStep(name, i, s);
      if DigitFitsBlock(s.cur, name[i]) {
        GroupsDecided(name, i + 1, Digits(s, name[i]));
      }
    } else if i == 0 {
      StartStep(name);
      if Double(name, 0) {
        GroupsDecided(name, 2, Scan([], 0, ""));
      }
    } else {
      ColonStep(name, i, s);
      if !(s.cur == "" || |s.groups| == 7 || (Double(name, i) && s.gap != -1)) {
        GroupsDecided(name, if Double(name, i) then i + 2 else i + 1, Closed(s, Double(name, i)));
      }
    }
  }

  /** Texts can be read in one way only. */
  lemma {:induction false} UniqueForm(f: Form)
    requires Valid(f)
    ensures Denotes(Text(f), f)
  {
    var name := Text(f);
    assert name[..0] == "" + "";
    GroupsDecided(name, 0, Scan([], -1, ""));
  }
}
