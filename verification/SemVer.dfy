/** Semantic versions: parsing, precedence, backward compatibility and the highest compatible candidate. */
module SemVer {
  import opened Outcomes
  import opened Text

  datatype Version = Version(major: nat, minor: nat, patch: nat, prerelease: Option<string>, build: Option<string>) {
    predicate IsStable() { prerelease.None? }
  }

  // ----- Parsing -----

  /** 0|[1-9]\d* */
  predicate NumericPart(s: string) {
    s != "" && AllDigits(s) && (s[0] == '0' ==> s == "0")
  }

  predicate IdentChar(c: char) {
    IsDigit(c) || 'A' <= c <= 'Z' || 'a' <= c <= 'z' || c == '-'
  }

  predicate IdentPart(s: string) {
    s != "" && forall i :: 0 <= i < |s| ==> IdentChar(s[i])
  }

  /** Identifiers joined by dots. */
  predicate DottedIdents(s: string) {
    forall i :: 0 <= i < |Split(s, '.')| ==> IdentPart(Split(s, '.')[i])
  }

  datatype Cut = Cut(before: string, after: Option<string>)

  /** The text before the first c, and the text after it when there is one. */
  function CutAt(s: string, c: char): (r: Cut)
    ensures c !in r.before
  {
    if s == [] then Cut("", None)
    else if s[0] == c then Cut("", Some(s[1..]))
    else
      var rest := CutAt(s[1..], c);
      Cut([s[0]] + rest.before, rest.after)
  }

  predicate OptionalIdents(o: Option<string>) { o.Some? ==> DottedIdents(o.value) }

  function Parse(value: string): Option<Version> {
    var plus := CutAt(Strip(value), '+');
    var minus := CutAt(plus.before, '-');
    var core := Split(minus.before, '.');
    if |core| == 3 && NumericPart(core[0]) && NumericPart(core[1]) && NumericPart(core[2]) &&
       OptionalIdents(minus.after) && OptionalIdents(plus.after)
    then Some(Version(NatOf(core[0]), NatOf(core[1]), NatOf(core[2]), minus.after, plus.after))
    else None
  }

  // ----- Printing -----

  predicate WellFormed(v: Version) { OptionalIdents(v.prerelease) && OptionalIdents(v.build) }

  function Rejoin(before: string, c: char, after: Option<string>): string {
    match after
    case None => before
    case Some(t) => before + [c] + t
  }

  function CoreText(v: Version): string { Join([Decimal(v.major), Decimal(v.minor), Decimal(v.patch)], ".") }

  function VersionText(v: Version): string {
    Rejoin(Rejoin(CoreText(v), '-', v.prerelease), '+', v.build)
  }

  lemma {:induction false} CutRejoins(s: string, c: char)
    ensures Rejoin(CutAt(s, c).before, c, CutAt(s, c).after) == s
  {
    if s != [] && s[0] != c {
      CutRejoins(s[1..], c);
      var rest := CutAt(s[1..], c);
      assert rest.after.Some? ==>
          [s[0]] + rest.before + [c] + rest.after.value == [s[0]] + (rest.before + [c] + rest.after.value);
    }
  }

  lemma {:induction false} RejoinCuts(before: string, c: char, after: Option<string>)
    requires c !in before
    ensures CutAt(Rejoin(before, c, after), c) == Cut(before, after)
  {
    var s := Rejoin(before, c, after);
    if before != [] {
      RejoinCuts(before[1..], c, after);
      assert s[0] == before[0] && s[1..] == Rejoin(before[1..], c, after);
    } else if after.Some? {
      assert s[0] == c && s[1..] == after.value;
    }
  }

  lemma {:induction false} DecimalNatOf(s: string)
    requires NumericPart(s)
    ensures Decimal(NatOf(s)) == s && (s[0] != '0' ==> NatOf(s) > 0)
  {
    var n := |s| - 1;
    var d := s[n] as int - '0' as int;
    assert s == s[..n] + [s[n]];
    if n > 0 {
      assert NumericPart(s[..n]);
      DecimalNatOf(s[..n]);
      assert NatOf(s) == NatOf(s[..n]) * 10 + d;
      assert NatOf(s) / 10 == NatOf(s[..n]) && NatOf(s) % 10 == d;
    } else {
      assert s[..0] == "";
    }
  }

  lemma DecimalIsNumeric(n: nat)
    ensures NumericPart(Decimal(n)) && NatOf(Decimal(n)) == n
    ensures '.' !in Decimal(n) && '-' !in Decimal(n) && '+' !in Decimal(n)
  {
    NatOfDecimal(n);
    DecimalLeadingDigit(n);
    assert forall i :: 0 <= i < |Decimal(n)| ==> IsDigit(Decimal(n)[i]);
  }

  lemma {:induction false} MissingChar(s: string, sep: char, c: char)
    requires c != sep && forall i :: 0 <= i < |Split(s, sep)| ==> c !in Split(s, sep)[i]
    ensures c !in s
  {
    if s != [] {
      var rest := Split(s[1..], sep);
      if s[0] == sep {
        assert forall i :: 0 <= i < |rest| ==> rest[i] == Split(s, sep)[i + 1];
      } else {
        assert forall i :: 0 < i < |rest| ==> rest[i] == Split(s, sep)[i];
        assert c !in Split(s, sep)[0];
        assert Split(s, sep)[0] == [s[0]] + rest[0];
      }
      MissingChar(s[1..], sep, c);
    }
  }

  lemma NoPlusInIdents(s: string)
    requires DottedIdents(s)
    ensures '+' !in s
  {
    forall i | 0 <= i < |Split(s, '.')| ensures '+' !in Split(s, '.')[i] {
      assert IdentPart(Split(s, '.')[i]);
      assert forall j :: 0 <= j < |Split(s, '.')[i]| ==> IdentChar(Split(s, '.')[i][j]);
    }
    MissingChar(s, '.', '+');
  }

  lemma CoreTextParts(v: Version)
    ensures Split(CoreText(v), '.') == [Decimal(v.major), Decimal(v.minor), Decimal(v.patch)]
    ensures '-' !in CoreText(v) && '+' !in CoreText(v)
  {
    DecimalIsNumeric(v.major);
    DecimalIsNumeric(v.minor);
    DecimalIsNumeric(v.patch);
    SplitJoin([Decimal(v.major), Decimal(v.minor), Decimal(v.patch)], '.');
    MissingChar(CoreText(v), '.', '-');
    MissingChar(CoreText(v), '.', '+');
  }

  /** Printing then parsing gives the version back. */
  lemma ParsePrinted(v: Version, value: string)
    requires WellFormed(v) && Strip(value) == VersionText(v)
    ensures Parse(value) == Some(v)
  {
    CoreTextParts(v);
    if v.prerelease.Some? { NoPlusInIdents(v.prerelease.value); }
    RejoinCuts(Rejoin(CoreText(v), '-', v.prerelease), '+', v.build);
    RejoinCuts(CoreText(v), '-', v.prerelease);
    DecimalIsNumeric(v.major);
    DecimalIsNumeric(v.minor);
    DecimalIsNumeric(v.patch);
  }

  /** Parsing accepts exactly the texts of well-formed versions, stripped, and loses nothing. */
  lemma ParseIsInverse(value: string)
    ensures match Parse(value)
            case Some(v) => WellFormed(v) && VersionText(v) == Strip(value)
            case None => forall v :: WellFormed(v) ==> VersionText(v) != Strip(value)
  {
    var plus := CutAt(Strip(value), '+');
    var minus := CutAt(plus.before, '-');
    var core := Split(minus.before, '.');
    if Parse(value).Some? {
      CutRejoins(Strip(value), '+');
      CutRejoins(plus.before, '-');
      JoinSplit(minus.before, '.');
      DecimalNatOf(core[0]);
      DecimalNatOf(core[1]);
      DecimalNatOf(core[2]);
      assert core == [core[0], core[1], core[2]];
    } else {
      forall v | WellFormed(v) ensures VersionText(v) != Strip(value) {
        if VersionText(v) == Strip(value) { ParsePrinted(v, value); }
      }
    }
  }

  // ----- Precedence -----

  datatype Identifier = Number(n: nat) | Word(s: string)

  function ToIdentifier(part: string): Identifier {
    if part != "" && AllDigits(part) then Number(NatOf(part)) else Word(part)
  }

  function ToIdentifiers(parts: seq<string>): seq<Identifier> {
    seq(|parts|, i requires 0 <= i < |parts| => ToIdentifier(parts[i]))
  }

  function PrereleaseIdentifiers(v: Version): seq<Identifier> {
    match v.prerelease
    case None => []
    case Some(s) => ToIdentifiers(Split(s, '.'))
  }

  method CollectIdentifiers(v: Version) returns (identifiers: seq<Identifier>)
    ensures identifiers == PrereleaseIdentifiers(v)
  {
    identifiers := [];
    if v.prerelease.None? {
      return;
    }
    var parts := Split(v.prerelease.value, '.');
    for i := 0 to |parts|
      invariant identifiers == ToIdentifiers(parts)[..i]
    {
      if parts[i] != "" && AllDigits(parts[i]) {
        identifiers := identifiers + [Number(NatOf(parts[i]))];
      } else {
        identifiers := identifiers + [Word(parts[i])];
      }
    }
  }

  /** The loop over paired identifiers, from position i on, and the comparison of lengths after it. */
  function CompareIdentifiers(left: seq<Identifier>, right: seq<Identifier>, i: nat): int
    requires i <= |left| && i <= |right|
    decreases |left| - i
  {
    if i < |left| && i < |right| then
      match (left[i], right[i])
      case (Number(m), Number(n)) => if m != n then (if m < n then -1 else 1)
        else CompareIdentifiers(left, right, i + 1)
      case (Number(_), Word(_)) => -1
      case (Word(_), Number(_)) => 1
      case (Word(s), Word(t)) => if s != t then (if Before(s, t) then -1 else 1)
        else CompareIdentifiers(left, right, i + 1)
    else if |left| == |right| then 0
    else if |left| < |right| then -1
    else 1
  }

  predicate NumbersBefore(a: Version, b: Version) {
    a.major < b.major || (a.major == b.major && (a.minor < b.minor || (a.minor == b.minor && a.patch < b.patch)))
  }

  function Compare(a: Version, b: Version): int {
    if (a.major, a.minor, a.patch) != (b.major, b.minor, b.patch) then (if NumbersBefore(a, b) then -1 else 1)
    else if a.prerelease.None? && b.prerelease.None? then 0
    else if a.prerelease.None? && b.prerelease.Some? then 1
    else if a.prerelease.Some? && b.prerelease.None? then -1
    else CompareIdentifiers(PrereleaseIdentifiers(a), PrereleaseIdentifiers(b), 0)
  }

  // The reference: one lexicographic order on the whole version, as item 11 of
  // Semantic Versioning 2.0.0 reads when a release is taken to end in a mark
  // that every identifier precedes.

  datatype Atom = NumberAtom(n: nat) | WordAtom(s: string) | ReleaseAtom

  function AtomOf(id: Identifier): Atom {
    match id
    case Number(n) => NumberAtom(n)
    case Word(s) => WordAtom(s)
  }

  function Key(v: Version): seq<Atom> {
    var ids := PrereleaseIdentifiers(v);
    [NumberAtom(v.major), NumberAtom(v.minor), NumberAtom(v.patch)] +
    (if v.prerelease.None? then [ReleaseAtom] else seq(|ids|, i requires 0 <= i < |ids| => AtomOf(ids[i])))
  }

  predicate AtomBefore(a: Atom, b: Atom) {
    match (a, b)
    case (NumberAtom(m), NumberAtom(n)) => m < n
    case (NumberAtom(_), _) => true
    case (WordAtom(s), WordAtom(t)) => Before(s, t)
    case (WordAtom(_), ReleaseAtom) => true
    case _ => false
  }

  predicate AgreeBelow(x: seq<Atom>, y: seq<Atom>, i: nat) {
    i <= |x| && i <= |y| && forall k :: 0 <= k < i ==> x[k] == y[k]
  }

  /** x and y agree below position i, where x has ended or is smaller. */
  predicate LexAt(x: seq<Atom>, y: seq<Atom>, i: nat) {
    AgreeBelow(x, y, i) && i < |y| && (i == |x| || AtomBefore(x[i], y[i]))
  }

  ghost predicate LexBefore(x: seq<Atom>, y: seq<Atom>) { exists i: nat :: LexAt(x, y, i) }

  lemma AtomTotal(a: Atom, b: Atom)
    ensures AtomBefore(a, b) || a == b || AtomBefore(b, a)
    ensures !(AtomBefore(a, b) && AtomBefore(b, a)) && !AtomBefore(a, a)
  {
    if a.WordAtom? {
      BeforeTotal(a.s, a.s);
      if b.WordAtom? { BeforeTotal(a.s, b.s); }
    }
  }

  lemma AtomTransitive(a: Atom, b: Atom, c: Atom)
    requires AtomBefore(a, b) && AtomBefore(b, c)
    ensures AtomBefore(a, c)
  {
    if a.WordAtom? && b.WordAtom? && c.WordAtom? { BeforeTransitive(a.s, b.s, c.s); }
  }

  lemma LexAsymmetric(x: seq<Atom>, y: seq<Atom>)
    requires LexBefore(x, y)
    ensures !LexBefore(y, x) && x != y
  {
    var i: nat :| LexAt(x, y, i);
    if i < |x| { AtomTotal(x[i], y[i]); }
    forall j | 0 <= j ensures !LexAt(y, x, j) {
      if j < |x| && j < |y| { AtomTotal(x[j], y[j]); }
    }
  }

  lemma LexTransitive(x: seq<Atom>, y: seq<Atom>, z: seq<Atom>)
    requires LexBefore(x, y) && LexBefore(y, z)
    ensures LexBefore(x, z)
  {
    var i: nat :| LexAt(x, y, i);
    var j: nat :| LexAt(y, z, j);
    if i == j && i < |x| { AtomTransitive(x[i], y[i], z[i]); }
    assert LexAt(x, z, if i < j then i else j);
  }

  // ----- compare is that order -----

  lemma {:induction false} CompareIdentifiersLex(left: seq<Identifier>, right: seq<Identifier>, x: seq<Atom>,
          y: seq<Atom>, i: nat)
    requires i <= |left| && i <= |right|
    requires |x| == |left| + 3 && |y| == |right| + 3 && AgreeBelow(x, y, i + 3)
    requires forall k :: 0 <= k < |left| ==> x[k + 3] == AtomOf(left[k])
    requires forall k :: 0 <= k < |right| ==> y[k + 3] == AtomOf(right[k])
    ensures CompareIdentifiers(left, right, i) == -1 ==> LexBefore(x, y)
    ensures CompareIdentifiers(left, right, i) == 1 ==> LexBefore(y, x)
    ensures CompareIdentifiers(left, right, i) == 0 ==> x == y
    ensures -1 <= CompareIdentifiers(left, right, i) <= 1
    decreases |left| - i
  {
    assert AgreeBelow(y, x, i + 3);
    if i < |left| && i < |right| {
      assert x[i + 3] == AtomOf(left[i]) && y[i + 3] == AtomOf(right[i]);
      if left[i] == right[i] {
        assert AgreeBelow(x, y, i + 4);
        CompareIdentifiersLex(left, right, x, y, i + 1);
      } else {
        AtomTotal(x[i + 3], y[i + 3]);
        assert LexAt(x, y, i + 3) || LexAt(y, x, i + 3);
      }
    } else {
      assert i == |x| - 3 == |y| - 3 || LexAt(x, y, i + 3) || LexAt(y, x, i + 3);
    }
  }

  lemma CompareSound(a: Version, b: Version)
    ensures Compare(a, b) == -1 ==> LexBefore(Key(a), Key(b))
    ensures Compare(a, b) == 1 ==> LexBefore(Key(b), Key(a))
    ensures Compare(a, b) == 0 ==> Key(a) == Key(b)
    ensures -1 <= Compare(a, b) <= 1
  {
    var x, y := Key(a), Key(b);
    assert x[0] == NumberAtom(a.major) && x[1] == NumberAtom(a.minor) && x[2] == NumberAtom(a.patch);
    assert y[0] == NumberAtom(b.major) && y[1] == NumberAtom(b.minor) && y[2] == NumberAtom(b.patch);
    if (a.major, a.minor, a.patch) != (b.major, b.minor, b.patch) {
      var i := if a.major != b.major then 0 else if a.minor != b.minor then 1 else 2;
      assert LexAt(x, y, i) || LexAt(y, x, i);
    } else {
      assert AgreeBelow(x, y, 3) && AgreeBelow(y, x, 3);
      if a.prerelease.Some? && b.prerelease.Some? {
        CompareIdentifiersLex(PrereleaseIdentifiers(a), PrereleaseIdentifiers(b), x, y, 0);
      } else if a.prerelease.Some? || b.prerelease.Some? {
        assert LexAt(x, y, 3) || LexAt(y, x, 3);
      }
    }
  }

  /** compare is the lexicographic order of the keys, and zero exactly on equal keys. */
  lemma CompareIsLexicographic(a: Version, b: Version)
    ensures Compare(a, b) == -1 <==> LexBefore(Key(a), Key(b))
    ensures Compare(a, b) == 1 <==> LexBefore(Key(b), Key(a))
    ensures Compare(a, b) == 0 <==> Key(a) == Key(b)
    ensures -1 <= Compare(a, b) <= 1
  {
    CompareSound(a, b);
    if LexBefore(Key(a), Key(b)) { LexAsymmetric(Key(a), Key(b)); }
    if LexBefore(Key(b), Key(a)) { LexAsymmetric(Key(b), Key(a)); }
  }

  /** A total preorder: the sign flips with the arguments, and order and equivalence pass along. */
  lemma ComparePreorder(a: Version, b: Version, c: Version)
    ensures Compare(a, b) == -Compare(b, a)
    ensures Compare(a, b) <= 0 && Compare(b, c) <= 0 ==> Compare(a, c) <= 0
    ensures Compare(a, b) < 0 && Compare(b, c) <= 0 ==> Compare(a, c) < 0
    ensures Compare(a, b) <= 0 && Compare(b, c) < 0 ==> Compare(a, c) < 0
  {
    CompareIsLexicographic(a, b);
    CompareIsLexicographic(b, a);
    CompareIsLexicographic(b, c);
    CompareIsLexicographic(a, c);
    if LexBefore(Key(a), Key(b)) && LexBefore(Key(b), Key(c)) { LexTransitive(Key(a), Key(b), Key(c)); }
  }

  /** Build metadata never matters; leading zeros of numeric identifiers do not either. */
  lemma BuildIgnored(a: Version, b: Version, build: Option<string>)
    ensures Compare(a.(build := build), b) == Compare(a, b) && Compare(a, a.(build := build)) == 0
  {
    assert PrereleaseIdentifiers(a.(build := build)) == PrereleaseIdentifiers(a);
    assert Key(a.(build := build)) == Key(a);
    CompareIsLexicographic(a, a.(build := build));
    CompareIsLexicographic(a.(build := build), b);
    CompareIsLexicographic(a, b);
  }

  // ----- Compatibility -----

  datatype SemVerError = InvalidVersion(value: string)

  function CompatibleVersions(candidate: Version, minimum: Version): bool {
    if !candidate.IsStable() then false
    else if candidate.major == 0 || minimum.major == 0 then
      candidate.major == minimum.major && candidate.minor == minimum.minor && Compare(candidate, minimum) >= 0
    else candidate.major == minimum.major && Compare(candidate, minimum) >= 0
  }

  function IsBackwardCompatible(candidate: string, minimum: string): Result<bool, SemVerError> {
    match Parse(candidate)
    case None => Err(InvalidVersion(candidate))
    case Some(c) =>
      match Parse(minimum)
      case None => Err(InvalidVersion(minimum))
      case Some(m) => Ok(CompatibleVersions(c, m))
  }

  /** What satisfies a compatible version's needs satisfies the needs it satisfies: compatibility chains. */
  lemma CompatibleTransitive(a: Version, b: Version, c: Version)
    requires CompatibleVersions(a, b) && CompatibleVersions(b, c)
    ensures CompatibleVersions(a, c)
  {
    ComparePreorder(b, a, a);
    ComparePreorder(c, b, a);
    ComparePreorder(a, c, c);
    ComparePreorder(b, c, c);
    ComparePreorder(a, b, b);
  }

  function FilterCompatible(candidates: seq<string>, minimum: string): Result<seq<string>, SemVerError> {
    if candidates == [] then Ok([])
    else
      match IsBackwardCompatible(candidates[0], minimum)
      case Err(e) => Err(e)
      case Ok(keep) =>
        match FilterCompatible(candidates[1..], minimum)
        case Err(e) => Err(e)
        case Ok(rest) => Ok(if keep then [candidates[0]] + rest else rest)
  }

  function CompareTexts(a: string, b: string): int
    requires Parse(a).Some? && Parse(b).Some?
  {
    Compare(Parse(a).value, Parse(b).value)
  }

  predicate AllParse(vs: seq<string>) { forall i :: 0 <= i < |vs| ==> Parse(vs[i]).Some? }

  /** Stable insertion, in descending order: equal versions keep their order. */
  function InsertDescending(v: string, sorted: seq<string>): (r: seq<string>)
    requires Parse(v).Some? && AllParse(sorted)
    ensures AllParse(r)
  {
    if sorted == [] then [v]
    else if CompareTexts(v, sorted[0]) >= 0 then [v] + sorted
    else
      assert forall i :: 0 < i < |sorted| ==> sorted[1..][i - 1] == sorted[i];
      [sorted[0]] + InsertDescending(v, sorted[1..])
  }

  /** sorted(..., reverse=True) */
  function SortDescending(vs: seq<string>): (r: seq<string>)
    requires AllParse(vs)
    ensures AllParse(r) && |r| == |vs|
  {
    if vs == [] then []
    else
      assert forall i :: 0 < i < |vs| ==> vs[1..][i - 1] == vs[i];
      var rest := SortDescending(vs[1..]);
      InsertLength(vs[0], rest);
      InsertDescending(vs[0], rest)
  }

  lemma {:induction false} InsertLength(v: string, sorted: seq<string>)
    requires Parse(v).Some? && AllParse(sorted)
    ensures |InsertDescending(v, sorted)| == |sorted| + 1
  {
    if sorted != [] && CompareTexts(v, sorted[0]) < 0 {
      assert forall i :: 0 < i < |sorted| ==> sorted[1..][i - 1] == sorted[i];
      InsertLength(v, sorted[1..]);
    }
  }

  /** The highest compatible candidate, or none, or the error of a version that does not parse. */
  function HighestCompatible(candidates: seq<string>, minimum: string): Result<Option<string>, SemVerError> {
    match FilterCompatible(candidates, minimum)
    case Err(e) => Err(e)
    case Ok(compatible) =>
      if compatible == [] then Ok(None)
      else
        FilteredParse(candidates, minimum);
        Ok(Some(SortDescending(compatible)[0]))
  }

  lemma {:induction false} FilteredParse(candidates: seq<string>, minimum: string)
    ensures FilterCompatible(candidates, minimum).Ok? ==> AllParse(FilterCompatible(candidates, minimum).value)
  {
    if candidates != [] {
      FilteredParse(candidates[1..], minimum);
    }
  }

  // ----- What resolution returns -----

  predicate CompatibleText(candidate: string, minimum: string) {
    IsBackwardCompatible(candidate, minimum) == Ok(true)
  }

  lemma {:induction false} FilterCompatibleMeans(candidates: seq<string>, minimum: string)
    ensures FilterCompatible(candidates, minimum).Ok? <==>
            candidates == [] || (Parse(minimum).Some? && AllParse(candidates))
    ensures FilterCompatible(candidates, minimum).Ok? ==>
              forall c :: c in FilterCompatible(candidates, minimum).value <==>
                  c in candidates && CompatibleText(c, minimum)
  {
    if candidates != [] {
      FilterCompatibleMeans(candidates[1..], minimum);
      assert forall i :: 0 < i < |candidates| ==> candidates[1..][i - 1] == candidates[i];
      assert candidates == [candidates[0]] + candidates[1..];
    }
  }

  lemma {:induction false} InsertDescendingHead(v: string, sorted: seq<string>)
    requires Parse(v).Some? && AllParse(sorted)
    ensures InsertDescending(v, sorted) != []
    ensures InsertDescending(v, sorted)[0] == if sorted == [] || CompareTexts(v, sorted[0]) >= 0 then v else sorted[0]
  {
  }

  /** The head of a descending sort is one of the versions, and none is after it. */
  lemma {:induction false} SortedHeadIsHighest(vs: seq<string>)
    requires AllParse(vs) && vs != []
    ensures SortDescending(vs)[0] in vs
    ensures forall i :: 0 <= i < |vs| ==> CompareTexts(vs[i], SortDescending(vs)[0]) <= 0
  {
    var rest := SortDescending(vs[1..]);
    assert forall i :: 0 < i < |vs| ==> vs[1..][i - 1] == vs[i];
    InsertDescendingHead(vs[0], rest);
    var head := SortDescending(vs)[0];
    var first := Parse(vs[0]).value;
    ComparePreorder(first, first, first);
    if vs[1..] != [] {
      SortedHeadIsHighest(vs[1..]);
      var second := Parse(rest[0]).value;
      ComparePreorder(first, second, second);
      forall i | 0 <= i < |vs| ensures CompareTexts(vs[i], head) <= 0 {
        if i > 0 {
          ComparePreorder(Parse(vs[i]).value, second, first);
          assert CompareTexts(vs[1..][i - 1], rest[0]) <= 0;
        }
      }
    }
  }

  /**
   * Resolution returns a compatible candidate that no compatible candidate
   * exceeds, none exactly when no candidate is compatible, and an error exactly
   * when there are candidates and one of them, or the minimum, does not parse.
   */
  lemma HighestCompatibleMeans(candidates: seq<string>, minimum: string)
    ensures var r := HighestCompatible(candidates, minimum);
            && (r.Ok? <==> candidates == [] || (Parse(minimum).Some? && AllParse(candidates)))
            && (r.Ok? && r.value.None? ==> forall c :: c in candidates ==> !CompatibleText(c, minimum))
            && (r.Ok? && r.value.Some? ==>
                  && r.value.value in candidates && CompatibleText(r.value.value, minimum)
                  && forall c :: c in candidates && CompatibleText(c, minimum) ==>
                       Parse(c).Some? && CompareTexts(c, r.value.value) <= 0)
  {
    FilterCompatibleMeans(candidates, minimum);
    FilteredParse(candidates, minimum);
    if FilterCompatible(candidates, minimum).Ok? {
      var compatible := FilterCompatible(candidates, minimum).value;
      if compatible == [] {
        assert forall c :: c in candidates ==> c !in compatible;
      } else {
        SortedHeadIsHighest(compatible);
        forall c | c in candidates && CompatibleText(c, minimum)
          ensures CompareTexts(c, HighestCompatible(candidates, minimum).value.value) <= 0
        {
          var i :| 0 <= i < |compatible| && compatible[i] == c;
        }
      }
    }
  }
}
