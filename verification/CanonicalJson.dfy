/**
 * Canonical JSON: sorting the keys of every object, in the recursive form and
 * in the form that fills an ordered map, and what the canonical text identifies.
 */
module CanonicalJson {
  import opened Text
  import opened JsonText

  // ----- Documents up to key order -----

  /** A JSON value in which an object is a finite map: order is forgotten at every depth. */
  datatype Doc =
    | DNull
    | DBool(b: bool)
    | DInt(n: int)
    | DStr(s: string)
    | DList(items: seq<Doc>)
    | DObject(members: map<string, Doc>)

  function Meaning(v: Value): Doc
    decreases v
  {
    match v
    case Null => DNull
    case Bool(b) => DBool(b)
    case Int(n) => DInt(n)
    case Str(s) => DStr(s)
    case List(items) => DList(MeaningOfItems(items))
    case Object(members) => DObject(MeaningOfMembers(members))
  }

  function MeaningOfItems(items: seq<Value>): seq<Doc>
    decreases items
  {
    if items == [] then [] else [Meaning(items[0])] + MeaningOfItems(items[1..])
  }

  function MeaningOfMembers(members: seq<Member>): map<string, Doc>
    decreases members
  {
    if members == [] then map[]
    else MeaningOfMembers(members[1..])[members[0].key := Meaning(members[0].value)]
  }

  ghost predicate DistinctKeys(members: seq<Member>) {
    forall i, j :: 0 <= i < j < |members| ==> members[i].key != members[j].key
  }

  /** A value as the program holds it: no dictionary has a key twice. */
  ghost predicate IsDocument(v: Value)
    decreases v
  {
    match v
    case List(items) => forall i :: 0 <= i < |items| ==> IsDocument(items[i])
    case Object(members) => DistinctKeys(members) && forall i :: 0 <= i < |members| ==> IsDocument(members[i].value)
    case _ => true
  }

  // ----- Canonical form -----

  ghost predicate SortedKeys(members: seq<Member>) {
    forall i, j :: 0 <= i < j < |members| ==> Before(members[i].key, members[j].key)
  }

  /** Put a member in key order, replacing the value of an equal key: BTreeMap::insert. */
  function Insert(m: Member, sorted: seq<Member>): seq<Member> {
    if sorted == [] then [m]
    else if m.key == sorted[0].key then [m] + sorted[1..]
    else if Before(m.key, sorted[0].key) then [m] + sorted
    else [sorted[0]] + Insert(m, sorted[1..])
  }

  /** Recursively canonical values, in key order. */
  function Canonicalize(v: Value): Value
    decreases v
  {
    match v
    case List(items) => List(CanonicalItems(items))
    case Object(members) => Object(CanonicalMembers(members))
    case _ => v
  }

  function CanonicalItems(items: seq<Value>): seq<Value>
    decreases items
  {
    if items == [] then [] else [Canonicalize(items[0])] + CanonicalItems(items[1..])
  }

  function CanonicalMembers(members: seq<Member>): seq<Member>
    decreases members
  {
    if members == [] then []
    else
      var last := members[|members| - 1];
      Insert(Member(last.key, Canonicalize(last.value)), CanonicalMembers(members[..|members| - 1]))
  }

  function CanonicalText(v: Value): string { Print(Canonicalize(v), true) }

  /** What serde_json prints for the same canonical form. */
  function RustCanonicalText(v: Value): string { Print(Canonicalize(v), false) }

  // ----- Sorted lists of members -----

  lemma {:induction false} InsertNew(m: Member, sorted: seq<Member>)
    requires SortedKeys(sorted)
    requires forall i :: 0 <= i < |sorted| ==> sorted[i].key != m.key
    ensures SortedKeys(Insert(m, sorted))
    ensures forall x :: x in Insert(m, sorted) <==> x == m || x in sorted
  {
    if sorted != [] {
      BeforeTotal(m.key, sorted[0].key);
      if Before(m.key, sorted[0].key) {
        forall i | 0 <= i < |sorted| ensures Before(m.key, sorted[i].key) {
          if i > 0 { BeforeTransitive(m.key, sorted[0].key, sorted[i].key); }
        }
      } else {
        var rest := Insert(m, sorted[1..]);
        InsertNew(m, sorted[1..]);
        forall i | 0 <= i < |rest| ensures Before(sorted[0].key, rest[i].key) {
          assert rest[i] in rest;
          if rest[i] != m { assert rest[i] in sorted[1..]; }
        }
        assert sorted == [sorted[0]] + sorted[1..];
      }
    }
  }

  /** The canonical members: sorted, and each the canonical value of its key. */
  lemma {:induction false} CanonicalMembersSorted(members: seq<Member>)
    requires DistinctKeys(members)
    ensures SortedKeys(CanonicalMembers(members))
    ensures forall x :: x in CanonicalMembers(members) <==>
              exists i :: 0 <= i < |members| && x == Member(members[i].key, Canonicalize(members[i].value))
  {
    if members != [] {
      var n := |members| - 1;
      var last, before := members[n], CanonicalMembers(members[..n]);
      CanonicalMembersSorted(members[..n]);
      forall i | 0 <= i < |before| ensures before[i].key != last.key {
        assert before[i] in before;
      }
      InsertNew(Member(last.key, Canonicalize(last.value)), before);
    }
  }

  /** Sorted lists with the same members are equal. */
  lemma {:induction false} SortedUnique(a: seq<Member>, b: seq<Member>)
    requires SortedKeys(a) && SortedKeys(b)
    requires forall x :: x in a <==> x in b
    ensures a == b
  {
    SameEmptiness(a, b);
    if a != [] {
      SameFirst(a, b);
      assert a == [a[0]] + a[1..] && b == [b[0]] + b[1..];
      BeforeTotal(a[0].key, a[0].key);
      forall x ensures x in a[1..] <==> x in b[1..] {
        if x in a[1..] { var i :| 0 <= i < |a[1..]| && a[1..][i] == x; assert Before(a[0].key, x.key); assert x in b; }
        if x in b[1..] { var i :| 0 <= i < |b[1..]| && b[1..][i] == x; assert Before(b[0].key, x.key); assert x in a; }
      }
      SortedUnique(a[1..], b[1..]);
    }
  }

  lemma SameEmptiness(a: seq<Member>, b: seq<Member>)
    requires forall x :: x in a <==> x in b
    ensures a == [] <==> b == []
  {
    if a != [] { assert a[0] in b; }
    if b != [] { assert b[0] in a; }
  }

  lemma SameFirst(a: seq<Member>, b: seq<Member>)
    requires SortedKeys(a) && SortedKeys(b) && a != [] && b != []
    requires forall x :: x in a <==> x in b
    ensures a[0] == b[0]
  {
    assert a[0] in b && b[0] in a;
    var i :| 0 <= i < |b| && b[i] == a[0];
    var j :| 0 <= j < |a| && a[j] == b[0];
    if i > 0 && j > 0 {
      assert Before(b[0].key, b[i].key) && Before(a[0].key, a[j].key);
      BeforeTotal(a[0].key, b[0].key);
    }
  }

  // ----- Canonical form keeps the meaning -----

  lemma {:induction false} MeaningOfMembersAt(members: seq<Member>)
    requires DistinctKeys(members)
    ensures forall k :: k in MeaningOfMembers(members) <==> exists i :: 0 <= i < |members| && members[i].key == k
    ensures forall i :: 0 <= i < |members| ==>
              members[i].key in MeaningOfMembers(members) &&
                  MeaningOfMembers(members)[members[i].key] == Meaning(members[i].value)
  {
    if members != [] {
      MeaningOfMembersAt(members[1..]);
      assert forall i :: 0 < i < |members| ==> members[i] == members[1..][i - 1];
    }
  }

  lemma {:induction false} CanonicalKeepsMeaning(v: Value)
    requires IsDocument(v)
    ensures Meaning(Canonicalize(v)) == Meaning(v) && IsDocument(Canonicalize(v))
    decreases v
  {
    match v {
      case List(items) =>
        CanonicalItemsKeepMeaning(items);
      case Object(members) =>
        var sorted := CanonicalMembers(members);
        forall i | 0 <= i < |members|
          ensures Meaning(Canonicalize(members[i].value)) == Meaning(members[i].value) &&
                  IsDocument(Canonicalize(members[i].value))
        {
          CanonicalKeepsMeaning(members[i].value);
        }
        CanonicalMembersKeepMeaning(members);
        CanonicalMembersSorted(members);
        SortedIsDistinct(sorted);
        forall j | 0 <= j < |sorted| ensures IsDocument(sorted[j].value) {
          assert sorted[j] in sorted;
        }
      case _ =>
    }
  }

  lemma SortedIsDistinct(sorted: seq<Member>)
    requires SortedKeys(sorted)
    ensures DistinctKeys(sorted)
  {
    forall i, j | 0 <= i < j < |sorted| ensures sorted[i].key != sorted[j].key {
      BeforeTotal(sorted[i].key, sorted[i].key);
    }
  }

  ghost predicate SameEntry(m: Member, n: Member) { m.key == n.key && Meaning(m.value) == Meaning(n.value) }

  ghost predicate HasEntry(members: seq<Member>, m: Member) {
    exists i :: 0 <= i < |members| && SameEntry(members[i], m)
  }

  lemma {:induction false} EntriesAreIncluded(a: seq<Member>, b: seq<Member>, k: string)
    requires DistinctKeys(a) && DistinctKeys(b)
    requires forall i :: 0 <= i < |a| ==> HasEntry(b, a[i])
    requires k in MeaningOfMembers(a)
    ensures k in MeaningOfMembers(b) && MeaningOfMembers(a)[k] == MeaningOfMembers(b)[k]
  {
    MeaningOfMembersAt(a);
    MeaningOfMembersAt(b);
    var i :| 0 <= i < |a| && a[i].key == k;
    assert HasEntry(b, a[i]);
    var j :| 0 <= j < |b| && SameEntry(b[j], a[i]);
  }

  /** Lists with the same entries, in any order, mean the same object. */
  lemma {:induction false} SameObject(a: seq<Member>, b: seq<Member>)
    requires DistinctKeys(a) && DistinctKeys(b)
    requires forall i :: 0 <= i < |a| ==> HasEntry(b, a[i])
    requires forall j :: 0 <= j < |b| ==> HasEntry(a, b[j])
    ensures MeaningOfMembers(a) == MeaningOfMembers(b)
  {
    var left, right := MeaningOfMembers(a), MeaningOfMembers(b);
    forall k | k in left ensures k in right && left[k] == right[k] { EntriesAreIncluded(a, b, k); }
    forall k | k in right ensures k in left { EntriesAreIncluded(b, a, k); }
  }

  lemma CanonicalMembersKeepMeaning(members: seq<Member>)
    requires DistinctKeys(members)
    requires forall i :: 0 <= i < |members| ==> Meaning(Canonicalize(members[i].value)) == Meaning(members[i].value)
    ensures MeaningOfMembers(CanonicalMembers(members)) == MeaningOfMembers(members)
  {
    var sorted := CanonicalMembers(members);
    CanonicalMembersSorted(members);
    SortedIsDistinct(sorted);
    forall j | 0 <= j < |sorted| ensures HasEntry(members, sorted[j]) {
      assert sorted[j] in sorted;
      var i :| 0 <= i < |members| && sorted[j] == Member(members[i].key, Canonicalize(members[i].value));
      assert SameEntry(members[i], sorted[j]);
    }
    forall i | 0 <= i < |members| ensures HasEntry(sorted, members[i]) {
      assert Member(members[i].key, Canonicalize(members[i].value)) in sorted;
      var j :| 0 <= j < |sorted| && sorted[j] == Member(members[i].key, Canonicalize(members[i].value));
      assert SameEntry(sorted[j], members[i]);
    }
    SameObject(sorted, members);
  }

  lemma {:induction false} CanonicalItemsKeepMeaning(items: seq<Value>)
    requires forall i :: 0 <= i < |items| ==> IsDocument(items[i])
    ensures MeaningOfItems(CanonicalItems(items)) == MeaningOfItems(items)
    ensures forall i :: 0 <= i < |CanonicalItems(items)| ==> IsDocument(CanonicalItems(items)[i])
    decreases items
  {
    if items != [] {
      CanonicalKeepsMeaning(items[0]);
      CanonicalItemsKeepMeaning(items[1..]);
    }
  }

  // ----- The meaning determines the canonical form -----

  lemma {:induction false} MeaningDeterminesCanonical(a: Value, b: Value)
    requires IsDocument(a) && IsDocument(b) && Meaning(a) == Meaning(b)
    ensures Canonicalize(a) == Canonicalize(b)
    decreases a
  {
    match a {
      case List(items) =>
        MeaningDeterminesItems(items, b.items);
      case Object(members) =>
        forall i, j | 0 <= i < |members| && 0 <= j < |b.members| && members[i].key == b.members[j].key
          ensures Canonicalize(members[i].value) == Canonicalize(b.members[j].value)
        {
          MeaningOfMembersAt(members);
          MeaningOfMembersAt(b.members);
          MeaningDeterminesCanonical(members[i].value, b.members[j].value);
        }
        MeaningDeterminesMembers(members, b.members);
      case _ =>
    }
  }

  lemma MeaningDeterminesMembers(a: seq<Member>, b: seq<Member>)
    requires DistinctKeys(a) && DistinctKeys(b) && MeaningOfMembers(a) == MeaningOfMembers(b)
    requires forall i, j :: 0 <= i < |a| && 0 <= j < |b| && a[i].key == b[j].key ==>
              Canonicalize(a[i].value) == Canonicalize(b[j].value)
    ensures CanonicalMembers(a) == CanonicalMembers(b)
  {
    MeaningOfMembersAt(a);
    MeaningOfMembersAt(b);
    CanonicalMembersSorted(a);
    CanonicalMembersSorted(b);
    forall x ensures x in CanonicalMembers(a) <==> x in CanonicalMembers(b) {
      if x in CanonicalMembers(a) {
        var i :| 0 <= i < |a| && x == Member(a[i].key, Canonicalize(a[i].value));
        var j :| 0 <= j < |b| && b[j].key == a[i].key;
      }
      if x in CanonicalMembers(b) {
        var j :| 0 <= j < |b| && x == Member(b[j].key, Canonicalize(b[j].value));
        var i :| 0 <= i < |a| && b[j].key == a[i].key;
      }
    }
    SortedUnique(CanonicalMembers(a), CanonicalMembers(b));
  }

  lemma {:induction false} MeaningDeterminesItems(a: seq<Value>, b: seq<Value>)
    requires forall i :: 0 <= i < |a| ==> IsDocument(a[i])
    requires forall i :: 0 <= i < |b| ==> IsDocument(b[i])
    requires MeaningOfItems(a) == MeaningOfItems(b)
    ensures CanonicalItems(a) == CanonicalItems(b)
    decreases a
  {
    if a != [] && b != [] {
      assert MeaningOfItems(a)[0] == Meaning(a[0]) && MeaningOfItems(b)[0] == Meaning(b[0]);
      assert MeaningOfItems(a)[1..] == MeaningOfItems(a[1..]) && MeaningOfItems(b)[1..] == MeaningOfItems(b[1..]);
      MeaningDeterminesCanonical(a[0], b[0]);
      MeaningDeterminesItems(a[1..], b[1..]);
    }
  }

  // ----- Main results -----

  /**
   * Two documents have the same canonical text exactly when they are equal up
   * to the order of keys, at every depth.
   */
  lemma CanonicalTextIdentifies(a: Value, b: Value)
    requires IsDocument(a) && IsDocument(b)
    ensures CanonicalText(a) == CanonicalText(b) <==> Meaning(a) == Meaning(b)
    ensures RustCanonicalText(a) == RustCanonicalText(b) <==> Meaning(a) == Meaning(b)
  {
    PrintInjective(Canonicalize(a), Canonicalize(b), true);
    PrintInjective(Canonicalize(a), Canonicalize(b), false);
    CanonicalKeepsMeaning(a);
    CanonicalKeepsMeaning(b);
    if Meaning(a) == Meaning(b) {
      MeaningDeterminesCanonical(a, b);
    }
  }

  lemma CanonicalizeIdempotent(v: Value)
    requires IsDocument(v)
    ensures Canonicalize(Canonicalize(v)) == Canonicalize(v)
  {
    CanonicalKeepsMeaning(v);
    MeaningDeterminesCanonical(Canonicalize(v), v);
  }

  /** Reordering the keys of an object leaves its canonical form unchanged. */
  lemma PermutedKeys(a: seq<Member>, b: seq<Member>)
    requires IsDocument(Object(a)) && IsDocument(Object(b))
    requires forall x :: x in a <==> x in b
    ensures Canonicalize(Object(a)) == Canonicalize(Object(b))
  {
    forall i | 0 <= i < |a| ensures HasEntry(b, a[i]) {
      assert a[i] in b;
      var j :| 0 <= j < |b| && b[j] == a[i];
      assert SameEntry(b[j], a[i]);
    }
    forall j | 0 <= j < |b| ensures HasEntry(a, b[j]) {
      assert b[j] in a;
      var i :| 0 <= i < |a| && b[j] == a[i];
      assert SameEntry(a[i], b[j]);
    }
    SameObject(a, b);
    MeaningDeterminesCanonical(Object(a), Object(b));
  }

  /** value[key], for a key that is present. */
  function Lookup(members: seq<Member>, k: string): Value {
    if members == [] then Null
    else if members[0].key == k then members[0].value
    else Lookup(members[1..], k)
  }

  lemma {:induction false} LookupAt(members: seq<Member>, i: nat)
    requires DistinctKeys(members) && i < |members|
    ensures Lookup(members, members[i].key) == members[i].value
  {
    if i > 0 {
      assert members[1..][i - 1] == members[i];
      LookupAt(members[1..], i - 1);
    }
  }

  /** The dictionary comprehension: canonical values looked up key by key. */
  function ByKeys(members: seq<Member>, keys: seq<string>): seq<Member> {
    if keys == [] then []
    else [Member(keys[0], Canonicalize(Lookup(members, keys[0])))] + ByKeys(members, keys[1..])
  }

  lemma {:induction false} ByKeysAt(members: seq<Member>, keys: seq<string>)
    ensures |ByKeys(members, keys)| == |keys|
    ensures forall i :: 0 <= i < |keys| ==>
              ByKeys(members, keys)[i] ==
              Member(keys[i], Canonicalize(Lookup(members, keys[i])))
  {
    if keys != [] {
      ByKeysAt(members, keys[1..]);
    }
  }

  /** Going through the sorted keys gives the canonical members. */
  lemma {:induction false} KeyByKey(members: seq<Member>, keys: seq<string>)
    requires DistinctKeys(members)
    requires forall i :: 0 <= i < |members| ==> members[i].key in keys
    requires forall k :: k in keys ==> exists i :: 0 <= i < |members| && members[i].key == k
    requires forall i, j :: 0 <= i < j < |keys| ==> Before(keys[i], keys[j])
    ensures ByKeys(members, keys) == CanonicalMembers(members)
  {
    var listed := ByKeys(members, keys);
    ByKeysAt(members, keys);
    CanonicalMembersSorted(members);
    forall x | x in listed ensures x in CanonicalMembers(members) {
      var j :| 0 <= j < |keys| && listed[j] == x;
      assert keys[j] in keys;
      var i :| 0 <= i < |members| && members[i].key == keys[j];
      LookupAt(members, i);
    }
    forall x | x in CanonicalMembers(members) ensures x in listed {
      var i :| 0 <= i < |members| && x == Member(members[i].key, Canonicalize(members[i].value));
      LookupAt(members, i);
      var j :| 0 <= j < |keys| && keys[j] == members[i].key;
      assert listed[j] == x;
    }
    SortedUnique(listed, CanonicalMembers(members));
  }

  // ----- The two languages -----

  predicate Low(s: string) { forall i :: 0 <= i < |s| ==> s[i] < '\U{7F}' }

  /** Every string in the value, keys included, stays below U+007F. */
  predicate Plain(v: Value)
    decreases v
  {
    match v
    case Str(s) => Low(s)
    case List(items) => PlainItems(items)
    case Object(members) => PlainMembers(members)
    case _ => true
  }

  predicate PlainItems(items: seq<Value>)
    decreases items
  {
    items == [] || (Plain(items[0]) && PlainItems(items[1..]))
  }

  predicate PlainMember(m: Member)
    decreases m
  {
    Low(m.key) && Plain(m.value)
  }

  predicate PlainMembers(members: seq<Member>)
    decreases members
  {
    members == [] || (PlainMember(members[0]) && PlainMembers(members[1..]))
  }

  lemma {:induction false} PlainMembersMeans(members: seq<Member>)
    ensures PlainMembers(members) <==> forall i :: 0 <= i < |members| ==> PlainMember(members[i])
  {
    if members != [] {
      PlainMembersMeans(members[1..]);
      assert forall i :: 0 < i < |members| ==> members[i] == members[1..][i - 1];
    }
  }

  lemma LowConcat(a: string, b: string)
    ensures Low(a + b) <==> Low(a) && Low(b)
  {
    if Low(a + b) {
      assert forall i :: 0 <= i < |a| ==> (a + b)[i] == a[i];
      assert forall i :: 0 <= i < |b| ==> (a + b)[|a| + i] == b[i];
    }
  }

  lemma UnitLow(n: nat)
    requires n < 0x1_0000
    ensures Low("\\u" + Hex4(n))
  {
    UnHexHexDigit(n / 16 / 16 / 16);
    UnHexHexDigit(n / 16 / 16 % 16);
    UnHexHexDigit(n / 16 % 16);
    UnHexHexDigit(n % 16);
  }

  lemma EscapeCharLow(c: char)
    ensures Low(EscapeChar(c, true))
    ensures Low(EscapeChar(c, false)) <==> c < '\U{7F}'
    ensures c < '\U{7F}' ==> EscapeChar(c, false) == EscapeChar(c, true)
  {
    var n := c as int;
    if n < 0x1_0000 {
      UnitLow(n);
    } else {
      UnitLow(HighSurrogate(n));
      UnitLow(LowSurrogate(n));
      LowConcat("\\u" + Hex4(HighSurrogate(n)), "\\u" + Hex4(LowSurrogate(n)));
      assert EscapeChar(c, true) == ("\\u" + Hex4(HighSurrogate(n))) + ("\\u" + Hex4(LowSurrogate(n)));
    }
    if EscapeChar(c, false) == [c] { assert EscapeChar(c, false)[0] == c; }
  }

  lemma EscapedLow(c: char, rest: string, ascii: string, plain: string)
    ensures Low(EscapeChar(c, true) + ascii) <==> Low(ascii)
    ensures Low(EscapeChar(c, false) + plain) <==> c < '\U{7F}' && Low(plain)
    ensures Low([c] + rest) <==> c < '\U{7F}' && Low(rest)
    ensures c < '\U{7F}' ==> EscapeChar(c, false) == EscapeChar(c, true)
  {
    EscapeCharLow(c);
    LowConcat(EscapeChar(c, true), ascii);
    LowConcat(EscapeChar(c, false), plain);
    LowConcat([c], rest);
  }

  lemma {:induction false} WriteCharsLow(s: string, x: string, y: string)
    ensures Low(WriteChars(s, x, true)) <==> Low(x)
    ensures Low(WriteChars(s, y, false)) <==> Low(s) && Low(y)
    ensures Low(s) && x == y ==> WriteChars(s, x, true) == WriteChars(s, y, false)
  {
    if s != [] {
      WriteCharsLow(s[1..], x, y);
      EscapedLow(s[0], s[1..], WriteChars(s[1..], x, true), WriteChars(s[1..], y, false));
      assert s == [s[0]] + s[1..];
    }
  }

  lemma WriteStringLow(s: string, x: string, y: string)
    ensures Low(WriteString(s, x, true)) <==> Low(x)
    ensures Low(WriteString(s, y, false)) <==> Low(s) && Low(y)
    ensures Low(s) && x == y ==> WriteString(s, x, true) == WriteString(s, y, false)
  {
    WriteCharsLow(s, ['"'] + x, ['"'] + y);
    LowConcat(['"'], x);
    LowConcat(['"'], y);
    LowConcat(['"'], WriteChars(s, ['"'] + x, true));
    LowConcat(['"'], WriteChars(s, ['"'] + y, false));
  }

  /** What the text of v does to being low, and when the two texts agree. */
  ghost predicate TextsLow(plain: bool, left: string, right: string, x: string, y: string) {
    && (Low(left) <==> Low(x))
    && (Low(right) <==> plain && Low(y))
    && (plain && x == y ==> left == right)
  }

  lemma {:induction false} WriteLow(v: Value, x: string, y: string)
    ensures TextsLow(Plain(v), Write(v, x, true), Write(v, y, false), x, y)
    decreases v, 1
  {
    match v {
      case Null =>
        LowConcat("null", x);
        LowConcat("null", y);
      case Bool(b) =>
        LowConcat(if b then "true" else "false", x);
        LowConcat(if b then "true" else "false", y);
      case Int(n) =>
        WriteIntLow(n, x);
        WriteIntLow(n, y);
      case Str(s) =>
        WriteStringLow(s, x, y);
      case List(items) =>
        WriteListLow(items, x, y);
      case Object(members) =>
        WriteObjectLow(members, x, y);
    }
  }

  /** A character below U+007F in front changes nothing. */
  lemma ConsLow(plain: bool, c: char, left: string, right: string, x: string, y: string)
    requires c < '\U{7F}' && TextsLow(plain, left, right, x, y)
    ensures TextsLow(plain, [c] + left, [c] + right, x, y)
  {
    LowConcat([c], left);
    LowConcat([c], right);
  }

  lemma {:induction false} WriteListLow(items: seq<Value>, x: string, y: string)
    ensures TextsLow(PlainItems(items), Write(List(items), x, true), Write(List(items), y, false), x, y)
    decreases items, 1
  {
    if items == [] {
      ConsLow(true, ']', x, y, x, y);
      ConsLow(true, '[', [']'] + x, [']'] + y, x, y);
    } else {
      var u, w := WriteItems(items[1..], x, true), WriteItems(items[1..], y, false);
      WriteItemsLow(items[1..], x, y);
      WriteLow(items[0], u, w);
      ConsLow(PlainItems(items), '[', Write(items[0], u, true), Write(items[0], w, false), x, y);
    }
  }

  lemma {:induction false} WriteObjectLow(members: seq<Member>, x: string, y: string)
    ensures TextsLow(PlainMembers(members), Write(Object(members), x, true), Write(Object(members), y, false), x, y)
    decreases members, 1
  {
    if members == [] {
      ConsLow(true, '}', x, y, x, y);
      ConsLow(true, '{', ['}'] + x, ['}'] + y, x, y);
    } else {
      var u, w := WriteMembers(members[1..], x, true), WriteMembers(members[1..], y, false);
      WriteMembersLow(members[1..], x, y);
      WriteMemberLow(members[0], u, w);
      ConsLow(PlainMembers(members), '{', WriteMember(members[0], u, true), WriteMember(members[0], w, false), x, y);
    }
  }

  lemma WriteIntLow(n: int, x: string)
    ensures Low(WriteInt(n, x)) <==> Low(x)
  {
    var digits := Decimal(if n < 0 then -n else n);
    LowConcat(digits, x);
    LowConcat(['-'], digits + x);
  }

  lemma {:induction false} WriteItemsLow(items: seq<Value>, x: string, y: string)
    ensures TextsLow(PlainItems(items), WriteItems(items, x, true), WriteItems(items, y, false), x, y)
    decreases items, 0
  {
    if items == [] {
      ConsLow(true, ']', x, y, x, y);
    } else {
      var u, w := WriteItems(items[1..], x, true), WriteItems(items[1..], y, false);
      WriteItemsLow(items[1..], x, y);
      WriteLow(items[0], u, w);
      ConsLow(PlainItems(items), ',', Write(items[0], u, true), Write(items[0], w, false), x, y);
    }
  }

  lemma {:induction false} WriteMemberLow(m: Member, x: string, y: string)
    ensures TextsLow(PlainMember(m), WriteMember(m, x, true), WriteMember(m, y, false), x, y)
    decreases m
  {
    var u, w := Write(m.value, x, true), Write(m.value, y, false);
    WriteLow(m.value, x, y);
    LowConcat([':'], u);
    LowConcat([':'], w);
    WriteStringLow(m.key, [':'] + u, [':'] + w);
  }

  lemma {:induction false} WriteMembersLow(members: seq<Member>, x: string, y: string)
    ensures TextsLow(PlainMembers(members), WriteMembers(members, x, true), WriteMembers(members, y, false), x, y)
    decreases members, 0
  {
    if members == [] {
      ConsLow(true, '}', x, y, x, y);
    } else {
      var u, w := WriteMembers(members[1..], x, true), WriteMembers(members[1..], y, false);
      WriteMembersLow(members[1..], x, y);
      WriteMemberLow(members[0], u, w);
      ConsLow(PlainMembers(members), ',', WriteMember(members[0], u, true), WriteMember(members[0], w, false), x, y);
    }
  }

  lemma {:induction false} CanonicalPlain(v: Value)
    requires IsDocument(v)
    ensures Plain(Canonicalize(v)) <==> Plain(v)
    decreases v
  {
    match v {
      case List(items) =>
        CanonicalItemsPlain(items);
      case Object(members) =>
        var sorted := CanonicalMembers(members);
        CanonicalMembersSorted(members);
        forall i | 0 <= i < |members| ensures Plain(Canonicalize(members[i].value)) <==> Plain(members[i].value) {
          CanonicalPlain(members[i].value);
        }
        PlainMembersMeans(members);
        PlainMembersMeans(sorted);
        if Plain(v) {
          forall j | 0 <= j < |sorted| ensures PlainMember(sorted[j]) {
            assert sorted[j] in sorted;
            var i :| 0 <= i < |members| && sorted[j] == Member(members[i].key, Canonicalize(members[i].value));
            assert PlainMember(members[i]);
          }
        }
        if Plain(Canonicalize(v)) {
          forall i | 0 <= i < |members| ensures PlainMember(members[i]) {
            assert Member(members[i].key, Canonicalize(members[i].value)) in sorted;
            var j :| 0 <= j < |sorted| && sorted[j] == Member(members[i].key, Canonicalize(members[i].value));
            assert PlainMember(sorted[j]);
          }
        }
      case _ =>
    }
  }

  lemma {:induction false} CanonicalItemsPlain(items: seq<Value>)
    requires forall i :: 0 <= i < |items| ==> IsDocument(items[i])
    ensures PlainItems(CanonicalItems(items)) <==> PlainItems(items)
    decreases items
  {
    if items != [] {
      CanonicalPlain(items[0]);
      CanonicalItemsPlain(items[1..]);
      assert CanonicalItems(items)[1..] == CanonicalItems(items[1..]);
    }
  }

  /**
   * The Python and the Rust text of a document are equal exactly when all its
   * strings stay below U+007F: beyond that one language escapes and the other does not.
   */
  lemma LanguagesAgree(v: Value)
    requires IsDocument(v)
    ensures CanonicalText(v) == RustCanonicalText(v) <==> Plain(v)
  {
    CanonicalPlain(v);
    WriteLow(Canonicalize(v), "", "");
  }

  // ----- The form that fills an ordered map -----

  /** The Rust canonicalize: children first, inserted into a sorted map that is then copied out. */
  method CanonicalizeByInsertion(v: Value) returns (r: Value)
    ensures r == Canonicalize(v)
    decreases v
  {
    match v {
      case List(items) =>
        var done: seq<Value> := [];
        for i := 0 to |items|
          invariant done + CanonicalItems(items[i..]) == CanonicalItems(items)
        {
          var c := CanonicalizeByInsertion(items[i]);
          assert items[i..][1..] == items[i + 1..];
          done := done + [c];
        }
        r := List(done);
      case Object(members) =>
        var sorted: seq<Member> := [];
        for i := 0 to |members|
          invariant sorted == CanonicalMembers(members[..i])
        {
          var c := CanonicalizeByInsertion(members[i].value);
          assert members[..i + 1][..i] == members[..i];
          sorted := Insert(Member(members[i].key, c), sorted);
        }
        assert members[..|members|] == members;
        var out: seq<Member> := [];
        for i := 0 to |sorted|
          invariant out == sorted[..i]
        {
          out := out + [sorted[i]];
        }
        r := Object(out);
      case _ =>
        r := v;
    }
  }
}
