/** Finding the migration files of a directory tree, their order and ids, and numbering a new one. */
module MigrationDiscovery {
  import opened Outcomes
  import opened Text
  import opened Migrations

  datatype SqlFile = SqlFile(domain: string, name: string, checksum: Checksum)

  datatype DiscoveryError = InvalidFilename(name: string)

  // ----- File names: NNNN_slug.sql -----

  function DigitRun(s: string): (n: nat)
    ensures n <= |s|
  {
    if s != [] && IsDigit(s[0]) then 1 + DigitRun(s[1..]) else 0
  }

  predicate ValidSlug(s: string) {
    s != "" && forall i :: 0 <= i < |s| ==> 'a' <= s[i] <= 'z' || IsDigit(s[i]) || s[i] == '_'
  }

  /** The file name pattern, for names that end in .sql as the listing yields them. */
  predicate ValidFilename(name: string) {
    var d := DigitRun(name);
    d >= 4 && |name| >= d + 5 && name[d] == '_' && name[|name| - 4..] == ".sql" && ValidSlug(name[d + 1..|name| - 4])
  }

  /** The version group of the file name pattern. */
  function VersionOf(name: string): (v: string)
    ensures AllDigits(v)
  {
    DigitRunDigits(name);
    name[..DigitRun(name)]
  }

  lemma {:induction false} DigitRunDigits(s: string)
    ensures AllDigits(s[..DigitRun(s)])
  {
    if s != [] && IsDigit(s[0]) {
      DigitRunDigits(s[1..]);
      assert forall i :: 0 < i < DigitRun(s) ==> s[i] == s[1..][..DigitRun(s) - 1][i - 1];
    }
  }

  function IdOf(engine: string, f: SqlFile): MigrationId {
    MigrationId(engine + "/" + f.domain + "/" + f.name)
  }

  function FileOf(engine: string, f: SqlFile): MigrationFile {
    MigrationFile(f.domain, f.name, VersionOf(f.name), IdOf(engine, f), f.checksum)
  }

  // ----- Order: domain, number of the version, file name -----

  datatype SortKey = SortKey(domain: string, number: nat, filename: string)

  function KeyOf(f: SqlFile): SortKey { SortKey(f.domain, NatOf(VersionOf(f.name)), f.name) }

  predicate Precedes(a: SortKey, b: SortKey) {
    Before(a.domain, b.domain) ||
    (a.domain == b.domain && (a.number < b.number || (a.number == b.number && Before(a.filename, b.filename))))
  }

  lemma PrecedesTotal(a: SortKey, b: SortKey)
    ensures Precedes(a, b) || a == b || Precedes(b, a)
    ensures !(Precedes(a, b) && Precedes(b, a)) && !Precedes(a, a)
  {
    BeforeTotal(a.domain, b.domain);
    BeforeTotal(a.filename, b.filename);
    BeforeTotal(a.domain, a.domain);
    BeforeTotal(a.filename, a.filename);
  }

  lemma PrecedesTransitive(a: SortKey, b: SortKey, c: SortKey)
    requires Precedes(a, b) && Precedes(b, c)
    ensures Precedes(a, c)
  {
    if Before(a.domain, b.domain) && Before(b.domain, c.domain) { BeforeTransitive(a.domain, b.domain, c.domain); }
    if Before(a.filename, b.filename) && Before(b.filename, c.filename) {
      BeforeTransitive(a.filename, b.filename, c.filename);
    }
  }

  ghost predicate InOrder(fs: seq<SqlFile>) {
    forall i, j :: 0 <= i < j < |fs| ==> Precedes(KeyOf(fs[i]), KeyOf(fs[j]))
  }

  /** No directory holds a name twice, and names hold no path separator. */
  ghost predicate IsTree(fs: seq<SqlFile>) {
    && (forall i, j :: 0 <= i < j < |fs| ==> fs[i].domain != fs[j].domain || fs[i].name != fs[j].name)
    && (forall i :: 0 <= i < |fs| ==> '/' !in fs[i].domain && '/' !in fs[i].name)
  }

  // ----- Sorting -----

  function Place(f: SqlFile, sorted: seq<SqlFile>): seq<SqlFile> {
    if sorted == [] then [f]
    else if Precedes(KeyOf(f), KeyOf(sorted[0])) then [f] + sorted
    else [sorted[0]] + Place(f, sorted[1..])
  }

  function SortFiles(fs: seq<SqlFile>): seq<SqlFile> {
    if fs == [] then [] else Place(fs[0], SortFiles(fs[1..]))
  }

  lemma {:induction false} PlaceAdds(f: SqlFile, sorted: seq<SqlFile>)
    ensures multiset(Place(f, sorted)) == multiset(sorted) + multiset{f}
  {
    if sorted != [] {
      assert sorted == [sorted[0]] + sorted[1..];
      PlaceAdds(f, sorted[1..]);
    }
  }

  lemma {:induction false} PlaceKeepsOrder(f: SqlFile, sorted: seq<SqlFile>)
    requires InOrder(sorted) && forall i :: 0 <= i < |sorted| ==> KeyOf(sorted[i]) != KeyOf(f)
    ensures InOrder(Place(f, sorted))
  {
    if sorted != [] {
      var first, rest := sorted[0], Place(f, sorted[1..]);
      PrecedesTotal(KeyOf(f), KeyOf(first));
      if Precedes(KeyOf(f), KeyOf(first)) {
        forall j | 0 <= j < |sorted| ensures Precedes(KeyOf(f), KeyOf(sorted[j])) {
          if j > 0 { PrecedesTransitive(KeyOf(f), KeyOf(first), KeyOf(sorted[j])); }
        }
      } else {
        PlaceKeepsOrder(f, sorted[1..]);
        PlaceAdds(f, sorted[1..]);
        forall j | 0 <= j < |rest| ensures Precedes(KeyOf(first), KeyOf(rest[j])) {
          assert rest[j] in multiset(rest);
          if rest[j] != f {
            var k :| 0 <= k < |sorted[1..]| && sorted[1..][k] == rest[j];
            assert sorted[k + 1] == rest[j];
          }
        }
        InOrderBehind(first, rest);
      }
    }
  }

  lemma InOrderBehind(first: SqlFile, rest: seq<SqlFile>)
    requires InOrder(rest) && forall j :: 0 <= j < |rest| ==> Precedes(KeyOf(first), KeyOf(rest[j]))
    ensures InOrder([first] + rest)
  {
  }

  lemma {:induction false} SortFilesSorts(fs: seq<SqlFile>)
    requires IsTree(fs)
    ensures InOrder(SortFiles(fs)) && multiset(SortFiles(fs)) == multiset(fs)
  {
    if fs != [] {
      var rest := SortFiles(fs[1..]);
      assert forall i :: 0 < i < |fs| ==> fs[1..][i - 1] == fs[i];
      SortFilesSorts(fs[1..]);
      assert fs == [fs[0]] + fs[1..];
      forall i | 0 <= i < |rest| ensures KeyOf(rest[i]) != KeyOf(fs[0]) {
        assert rest[i] in multiset(rest);
        assert rest[i] in fs[1..];
      }
      PlaceKeepsOrder(fs[0], rest);
      PlaceAdds(fs[0], rest);
    }
  }

  lemma {:induction false} InOrderUnique(a: seq<SqlFile>, b: seq<SqlFile>)
    requires InOrder(a) && InOrder(b) && multiset(a) == multiset(b)
    ensures a == b
  {
    if a == [] {
      assert |multiset(b)| == 0;
    } else {
      assert |multiset(a)| == |a| && |multiset(b)| == |b|;
      FirstInOrder(a, b);
      assert a == [a[0]] + a[1..] && b == [b[0]] + b[1..];
      assert multiset(a[1..]) == multiset(a) - multiset{a[0]} && multiset(b[1..]) == multiset(b) - multiset{b[0]};
      InOrderUnique(a[1..], b[1..]);
    }
  }

  lemma FirstInOrder(a: seq<SqlFile>, b: seq<SqlFile>)
    requires InOrder(a) && InOrder(b) && multiset(a) == multiset(b) && a != [] && b != []
    ensures a[0] == b[0]
  {
    assert a[0] in multiset(b) && b[0] in multiset(a);
    var i :| 0 <= i < |b| && b[i] == a[0];
    var j :| 0 <= j < |a| && a[j] == b[0];
    PrecedesTotal(KeyOf(a[0]), KeyOf(b[0]));
  }

  // ----- Discovery -----

  predicate Selected(f: SqlFile, domainFilter: Option<string>) {
    domainFilter.None? || domainFilter.value == f.domain
  }

  function SelectFiles(fs: seq<SqlFile>, domainFilter: Option<string>): seq<SqlFile> {
    if fs == [] then []
    else (if Selected(fs[0], domainFilter) then [fs[0]] else []) + SelectFiles(fs[1..], domainFilter)
  }

  function Files(engine: string, fs: seq<SqlFile>): seq<MigrationFile> {
    seq(|fs|, i requires 0 <= i < |fs| => FileOf(engine, fs[i]))
  }

  predicate AllValid(fs: seq<SqlFile>) { forall f :: f in fs ==> ValidFilename(f.name) }

  lemma ConcatAssociative(a: seq<SqlFile>, b: seq<SqlFile>, c: seq<SqlFile>)
    ensures (a + b) + c == a + (b + c)
  {
  }

  lemma {:induction false} SelectFilesAppend(fs: seq<SqlFile>, f: SqlFile, domainFilter: Option<string>)
    ensures SelectFiles(fs + [f], domainFilter) ==
            SelectFiles(fs, domainFilter) + if Selected(f, domainFilter) then [f] else []
  {
    if fs == [] {
      assert [f][1..] == [];
    } else {
      var all := fs + [f];
      var rest := SelectFiles(fs[1..], domainFilter);
      var last := if Selected(f, domainFilter) then [f] else [];
      assert all[0] == fs[0] && all[1..] == fs[1..] + [f];
      SelectFilesAppend(fs[1..], f, domainFilter);
      ConcatAssociative(if Selected(fs[0], domainFilter) then [fs[0]] else [], rest, last);
    }
  }

  lemma {:induction false} SelectedStays(fs: seq<SqlFile>, i: nat, domainFilter: Option<string>)
    requires i < |fs| && Selected(fs[i], domainFilter)
    ensures fs[i] in SelectFiles(fs, domainFilter)
  {
    if i > 0 { SelectedStays(fs[1..], i - 1, domainFilter); }
  }

  /** Collect the .sql files of the selected domains, refusing a name that does not fit, then sort. */
  method Discover(engine: string, listing: seq<SqlFile>, domainFilter: Option<string>)
    returns (r: Result<seq<MigrationFile>, DiscoveryError>)
    ensures r.Ok? <==> AllValid(SelectFiles(listing, domainFilter))
    ensures r.Ok? ==> r.value == Files(engine, SortFiles(SelectFiles(listing, domainFilter)))
    ensures r.Err? ==> !ValidFilename(r.error.name)
  {
    var found: seq<SqlFile> := [];
    for i := 0 to |listing|
      invariant found == SelectFiles(listing[..i], domainFilter) && AllValid(found)
    {
      assert listing[..i + 1] == listing[..i] + [listing[i]];
      SelectFilesAppend(listing[..i], listing[i], domainFilter);
      if !Selected(listing[i], domainFilter) {
        continue;
      }
      if !ValidFilename(listing[i].name) {
        SelectedStays(listing, i, domainFilter);
        return Err(InvalidFilename(listing[i].name));
      }
      found := found + [listing[i]];
    }
    assert listing[..|listing|] == listing;
    var sorted := SortFiles(found);
    r := Ok(Files(engine, sorted));
  }

  lemma {:induction false} SelectFilesKeeps(fs: seq<SqlFile>, domainFilter: Option<string>)
    requires IsTree(fs)
    ensures IsTree(SelectFiles(fs, domainFilter))
    ensures forall f :: f in SelectFiles(fs, domainFilter) <==> f in fs && Selected(f, domainFilter)
  {
    if fs != [] {
      var rest := SelectFiles(fs[1..], domainFilter);
      assert forall i :: 0 < i < |fs| ==> fs[1..][i - 1] == fs[i];
      SelectFilesKeeps(fs[1..], domainFilter);
      assert fs == [fs[0]] + fs[1..];
      forall i | 0 <= i < |rest| ensures fs[0].domain != rest[i].domain || fs[0].name != rest[i].name {
        assert rest[i] in rest;
        assert rest[i] in fs[1..];
      }
    }
  }

  lemma IdsDiffer(engine: string, a: SqlFile, b: SqlFile)
    requires '/' !in a.domain && '/' !in a.name && '/' !in b.domain && '/' !in b.name
    requires IdOf(engine, a) == IdOf(engine, b)
    ensures a.domain == b.domain && a.name == b.name
  {
    IdParts(engine, a);
    IdParts(engine, b);
    var n := |Split(engine, '/')|;
    var parts := Split(IdOf(engine, a).text, '/');
    assert parts[n] == a.domain && parts[n + 1] == a.name && parts[n] == b.domain && parts[n + 1] == b.name;
  }

  lemma IdParts(engine: string, f: SqlFile)
    requires '/' !in f.domain && '/' !in f.name
    ensures Split(IdOf(engine, f).text, '/') == Split(engine, '/') + [f.domain, f.name]
  {
    var head := engine + "/" + f.domain;
    SplitConcat(engine, f.domain, '/');
    SplitConcat(head, f.name, '/');
    SplitNoSeparator(f.domain, '/');
    SplitNoSeparator(f.name, '/');
    assert engine + ['/'] + f.domain == head && head + ['/'] + f.name == IdOf(engine, f).text;
    assert Split(engine, '/') + [f.domain] + [f.name] == Split(engine, '/') + [f.domain, f.name];
  }

  lemma DiscoveredIds(engine: string, fs: seq<SqlFile>)
    requires InOrder(fs) && forall i :: 0 <= i < |fs| ==> '/' !in fs[i].domain && '/' !in fs[i].name
    ensures DistinctIds(Files(engine, fs))
  {
    forall i, j | 0 <= i < j < |fs| ensures Files(engine, fs)[i].migrationId != Files(engine, fs)[j].migrationId {
      if IdOf(engine, fs[i]) == IdOf(engine, fs[j]) {
        IdsDiffer(engine, fs[i], fs[j]);
        PrecedesTotal(KeyOf(fs[i]), KeyOf(fs[j]));
      }
    }
  }

  /**
   * What discovery finds does not depend on the order in which the file system
   * lists it: the files come in strictly increasing key order, with distinct ids.
   */
  lemma {:induction false} DiscoveryDetermined(engine: string, a: seq<SqlFile>, b: seq<SqlFile>,
          domainFilter: Option<string>)
    requires IsTree(a) && IsTree(b) && multiset(SelectFiles(a, domainFilter)) == multiset(SelectFiles(b, domainFilter))
    ensures SortFiles(SelectFiles(a, domainFilter)) == SortFiles(SelectFiles(b, domainFilter))
    ensures InOrder(SortFiles(SelectFiles(a, domainFilter)))
    ensures DistinctIds(Files(engine, SortFiles(SelectFiles(a, domainFilter))))
  {
    var x, y := SelectFiles(a, domainFilter), SelectFiles(b, domainFilter);
    SelectFilesKeeps(a, domainFilter);
    SelectFilesKeeps(b, domainFilter);
    SortFilesSorts(x);
    SortFilesSorts(y);
    InOrderUnique(SortFiles(x), SortFiles(y));
    forall i | 0 <= i < |SortFiles(x)| ensures '/' !in SortFiles(x)[i].domain && '/' !in SortFiles(x)[i].name {
      assert SortFiles(x)[i] in multiset(SortFiles(x));
      assert SortFiles(x)[i] in x;
    }
    DiscoveredIds(engine, SortFiles(x));
  }

  lemma {:induction false} SelectFilesCount(fs: seq<SqlFile>, domainFilter: Option<string>, f: SqlFile)
    ensures multiset(SelectFiles(fs, domainFilter))[f] == if Selected(f, domainFilter) then multiset(fs)[f] else 0
  {
    if fs != [] {
      SelectFilesCount(fs[1..], domainFilter, f);
      assert fs == [fs[0]] + fs[1..];
    }
  }

  /** Two listings of one tree, in whatever order, are discovered alike. */
  lemma ListingOrderIrrelevant(engine: string, a: seq<SqlFile>, b: seq<SqlFile>, domainFilter: Option<string>)
    requires IsTree(a) && IsTree(b) && multiset(a) == multiset(b)
    ensures AllValid(SelectFiles(a, domainFilter)) <==> AllValid(SelectFiles(b, domainFilter))
    ensures Files(engine, SortFiles(SelectFiles(a, domainFilter))) ==
            Files(engine, SortFiles(SelectFiles(b, domainFilter)))
  {
    var x, y := SelectFiles(a, domainFilter), SelectFiles(b, domainFilter);
    forall f ensures multiset(x)[f] == multiset(y)[f] {
      SelectFilesCount(a, domainFilter, f);
      SelectFilesCount(b, domainFilter, f);
    }
    assert multiset(x) == multiset(y);
    assert forall f :: f in x <==> f in multiset(x);
    assert forall f :: f in y <==> f in multiset(y);
    DiscoveryDetermined(engine, a, b, domainFilter);
  }

  // ----- A new migration -----

  function MaxVersion(fs: seq<SqlFile>): (m: nat)
    ensures forall i :: 0 <= i < |fs| ==> NatOf(VersionOf(fs[i].name)) <= m
  {
    if fs == [] then 0
    else
      var first, rest := NatOf(VersionOf(fs[0].name)), MaxVersion(fs[1..]);
      assert forall i :: 0 < i < |fs| ==> fs[1..][i - 1] == fs[i];
      if first > rest then first else rest
  }

  /** str.zfill */
  function ZFill(s: string, width: nat): string
    decreases width - |s|
  {
    if |s| >= width then s else ZFill("0" + s, width)
  }

  function NextVersion(existing: seq<SqlFile>): string {
    if existing == [] then "0001" else ZFill(Decimal(MaxVersion(existing) + 1), 4)
  }

  lemma {:induction false} LeadingZero(s: string)
    requires AllDigits(s)
    ensures AllDigits("0" + s) && NatOf("0" + s) == NatOf(s)
  {
    if s == [] {
      assert "0" + s == "0" && "0"[..0] == "";
    } else {
      assert ("0" + s)[..|s|] == "0" + s[..|s| - 1];
      LeadingZero(s[..|s| - 1]);
    }
  }

  lemma {:induction false} ZFillKeepsNumber(s: string, width: nat)
    requires AllDigits(s)
    ensures AllDigits(ZFill(s, width)) && NatOf(ZFill(s, width)) == NatOf(s) && |ZFill(s, width)| >= width
    decreases width - |s|
  {
    if |s| < width {
      LeadingZero(s);
      ZFillKeepsNumber("0" + s, width);
    }
  }

  lemma NextVersionNumber(existing: seq<SqlFile>)
    ensures AllDigits(NextVersion(existing)) && |NextVersion(existing)| >= 4
    ensures NatOf(NextVersion(existing)) == MaxVersion(existing) + 1
  {
    if existing == [] {
      LeadingZero("1");
      LeadingZero("01");
      LeadingZero("001");
      assert "0" + "1" == "01" && "0" + "01" == "001" && "0" + "001" == "0001";
      assert "1"[..0] == "";
    } else {
      NatOfDecimal(MaxVersion(existing) + 1);
      ZFillKeepsNumber(Decimal(MaxVersion(existing) + 1), 4);
    }
  }

  function NewFilename(existing: seq<SqlFile>, slug: string): string {
    NextVersion(existing) + "_" + slug + ".sql"
  }

  lemma {:induction false} DigitRunStops(digits: string, rest: string)
    requires AllDigits(digits) && rest != [] && !IsDigit(rest[0])
    ensures DigitRun(digits + rest) == |digits|
  {
    if digits == [] {
      assert digits + rest == rest;
    } else {
      assert (digits + rest)[1..] == digits[1..] + rest;
      DigitRunStops(digits[1..], rest);
    }
  }

  /** validate_slug: the pattern's $ also matches before a newline at the end. */
  predicate AcceptedSlug(slug: string) {
    ValidSlug(slug) || (slug != "" && slug[|slug| - 1] == '\n' && ValidSlug(slug[..|slug| - 1]))
  }

  /**
   * The new file's version reads back as the next one, and its name is valid
   * exactly when the slug does not end in a newline.
   */
  lemma NewFilenameReadsBack(existing: seq<SqlFile>, slug: string)
    requires AcceptedSlug(slug)
    ensures VersionOf(NewFilename(existing, slug)) == NextVersion(existing)
    ensures ValidFilename(NewFilename(existing, slug)) <==> slug[|slug| - 1] != '\n'
  {
    var v, rest, name := NextVersion(existing), "_" + slug + ".sql", NewFilename(existing, slug);
    NextVersionNumber(existing);
    assert name == v + rest && rest[0] == '_';
    DigitRunStops(v, rest);
    assert name[..|v|] == v && name[|v|] == rest[0];
    assert name[|name| - 4..] == ".sql" && name[|v| + 1..|name| - 4] == slug;
  }

  /** After a file is created, discovery accepts the tree again exactly when the slug does not end in a newline. */
  lemma DiscoveryAfterCreate(listing: seq<SqlFile>, existing: seq<SqlFile>, domain: string, slug: string,
          checksum: Checksum, domainFilter: Option<string>)
    requires AllValid(SelectFiles(listing, domainFilter)) && AcceptedSlug(slug)
    requires Selected(SqlFile(domain, NewFilename(existing, slug), checksum), domainFilter)
    ensures var f := SqlFile(domain, NewFilename(existing, slug), checksum);
            AllValid(SelectFiles(listing + [f], domainFilter)) <==> slug[|slug| - 1] != '\n'
  {
    var f := SqlFile(domain, NewFilename(existing, slug), checksum);
    SelectFilesAppend(listing, f, domainFilter);
    NewFilenameReadsBack(existing, slug);
    assert f in SelectFiles(listing, domainFilter) + [f];
  }

  /** The slug "abc" with a newline is accepted, and its file stops every later discovery of the domain. */
  lemma NewlineSlugBlocks(existing: seq<SqlFile>, domain: string, checksum: Checksum)
    requires AllValid(SelectFiles(existing, Some(domain)))
    ensures AcceptedSlug("abc\n")
    ensures !AllValid(SelectFiles(existing + [SqlFile(domain, NewFilename(existing, "abc\n"), checksum)], Some(domain)))
  {
    var slug := "abc\n";
    assert slug[..3] == "abc" && slug[3] == '\n';
    DiscoveryAfterCreate(existing, existing, domain, slug, checksum, Some(domain));
  }

  /** A created migration sorts after every migration of its domain, so it is discovered last. */
  lemma CreatedIsLast(existing: seq<SqlFile>, domain: string, slug: string, checksum: Checksum)
    requires InOrder(existing) && forall i :: 0 <= i < |existing| ==> existing[i].domain == domain
    requires AcceptedSlug(slug)
    ensures var f := SqlFile(domain, NewFilename(existing, slug), checksum);
            InOrder(existing + [f]) && forall i :: 0 <= i < |existing| ==> existing[i].name != f.name
  {
    NewFilenameReadsBack(existing, slug);
    NextVersionNumber(existing);
  }
}
