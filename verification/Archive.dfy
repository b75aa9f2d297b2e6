/** The distribution archive: its member order, built from a list of files, and the
    verifier that compares an archive with the current source. */
module Archive {
  import opened Outcomes
  import opened Orders
  import opened Paths
  import opened Sequences
  import opened Sorting

  datatype Entry = Entry(name: string, data: seq<int>)

  type Stamp = (nat, nat, nat, nat, nat, nat)
  const FIXED_TIME: Stamp := (1980, 1, 1, 0, 0, 0)

  datatype Member = Member(name: string, stamp: Stamp, data: seq<int>)

  function EntryName(e: Entry): string {
    e.name
  }

  // ----- Directories -----

  // `name.split("/")`.
  function Split(name: string): (parts: seq<string>)
    ensures parts != []
  {
    if name == [] then [""]
    else
      var rest := Split(name[1..]);
      if name[0] == '/' then [""] + rest else [[name[0]] + rest[0]] + rest[1..]
  }

  // `"/".join(parts)`.
  function Join(parts: seq<string>): string {
    if parts == [] then "" else if |parts| == 1 then parts[0] else parts[0] + ("/" + Join(parts[1..]))
  }

  // The name up to and including one of its slashes.
  predicate IsParent(dir: string, name: string) {
    dir != [] && dir <= name && dir[|dir| - 1] == '/'
  }

  function Prefix(name: string, count: nat): string
    requires count <= |Split(name)|
  {
    Join(Split(name)[..count]) + "/"
  }

  // Joining the first parts gives the name up to one slash.
  lemma {:induction false} PrefixIsParent(name: string, count: nat)
    requires 1 <= count < |Split(name)|
    ensures IsParent(Prefix(name, count), name)
    decreases |name|
  {
    var parts, rest := Split(name), Split(name[1..]);
    var c := name[0];
    assert name == [c] + name[1..];
    if c == '/' {
      assert parts[..count] == [""] + rest[..count - 1];
      if count == 1 {
        assert Prefix(name, 1) == "/";
      } else {
        PrefixIsParent(name[1..], count - 1);
        assert parts[..count][1..] == rest[..count - 1];
        assert Prefix(name, count) == "/" + Prefix(name[1..], count - 1);
      }
    } else {
      PrefixIsParent(name[1..], count);
      ConsPrefix(name, count);
    }
  }

  lemma ConsPrefix(name: string, count: nat)
    requires name != [] && name[0] != '/' && 1 <= count <= |Split(name)|
    ensures Prefix(name, count) == [name[0]] + Prefix(name[1..], count)
  {
    var parts, rest := Split(name), Split(name[1..]);
    assert parts[..count] == [[name[0]] + rest[0]] + rest[1..count];
    assert rest[..count] == [rest[0]] + rest[1..count];
    JoinCons(name[0], rest[0], rest[1..count]);
    Regroup([name[0]], Join(rest[..count]), "/");
  }

  lemma JoinCons(c: char, first: string, more: seq<string>)
    ensures Join([[c] + first] + more) == [c] + Join([first] + more)
  {
    assert ([[c] + first] + more)[1..] == more && ([first] + more)[1..] == more;
  }

  // Every slash is reached by some number of parts.
  lemma {:induction false} ParentIsPrefix(name: string, dir: string) returns (count: nat)
    requires IsParent(dir, name)
    ensures 1 <= count < |Split(name)| && dir == Prefix(name, count)
    decreases |name|
  {
    var rest := Split(name[1..]);
    assert name == [name[0]] + name[1..] && dir == [dir[0]] + dir[1..];
    if name[0] == '/' {
      if dir == "/" {
        count := 1;
        assert Split(name)[..1] == [""];
      } else {
        assert dir[1..] <= name[1..];
        var k := ParentIsPrefix(name[1..], dir[1..]);
        count := k + 1;
        assert Split(name)[..count] == [""] + rest[..k];
        assert Split(name)[..count][1..] == rest[..k];
      }
    } else {
      assert dir[1..] <= name[1..];
      count := ParentIsPrefix(name[1..], dir[1..]);
      ConsPrefix(name, count);
    }
  }

  // The directories above the files.
  ghost predicate IsDirectory(entries: seq<Entry>, dir: string) {
    exists e :: e in entries && IsParent(dir, e.name)
  }

  // `directory_names`, before sorting.
  method DirectorySet(entries: seq<Entry>) returns (names: set<string>)
    ensures forall d :: d in names <==> IsDirectory(entries, d)
  {
    names := {};
    for i := 0 to |entries|
      invariant forall d :: d in names <==> IsDirectory(entries[..i], d)
    {
      var e := entries[i];
      assert entries[..i + 1] == entries[..i] + [e];
      ghost var before := names;
      var parts := Split(e.name);
      for count := 1 to |parts|
        invariant forall d ::
          d in names <==> d in before || exists k :: 1 <= k < count <= |Split(e.name)| && d == Prefix(e.name, k)
      {
        names := names + {Join(parts[..count]) + "/"};
        assert Join(parts[..count]) + "/" == Prefix(e.name, count);
      }
      forall d ensures d in names <==> IsDirectory(entries[..i + 1], d) {
        OneMoreEntry(entries[..i], e, d);
        if IsParent(d, e.name) { var k := ParentIsPrefix(e.name, d); }
        if k :| 1 <= k < |parts| && d == Prefix(e.name, k) { PrefixIsParent(e.name, k); }
      }
    }
    assert entries[..|entries|] == entries;
  }

  lemma OneMoreEntry(entries: seq<Entry>, e: Entry, d: string)
    ensures IsDirectory(entries + [e], d) <==> IsDirectory(entries, d) || IsParent(d, e.name)
  {
    if IsDirectory(entries, d) {
      var x :| x in entries && IsParent(d, x.name);
      assert x in entries + [e];
    }
    assert e in entries + [e];
  }

  // The directories, as a set determined by the list of files.
  ghost function Directories(entries: seq<Entry>): set<string> {
    set e, k | e in entries && 1 <= k <= |e.name| && IsParent(e.name[..k], e.name) :: e.name[..k]
  }

  lemma DirectoriesAre(entries: seq<Entry>)
    ensures forall d :: d in Directories(entries) <==> IsDirectory(entries, d)
  {
    forall d ensures d in Directories(entries) <==> IsDirectory(entries, d) {
      if IsDirectory(entries, d) {
        var e :| e in entries && IsParent(d, e.name);
        assert d == e.name[..|d|];
      }
    }
  }

  // ----- Building -----

  function DirMember(name: string): Member {
    Member(name, FIXED_TIME, [])
  }

  function FileMember(e: Entry): Member {
    Member(e.name, FIXED_TIME, e.data)
  }

  function DirMembers(names: seq<string>): (ms: seq<Member>)
    ensures |ms| == |names| && forall i :: 0 <= i < |ms| ==> ms[i] == DirMember(names[i])
  {
    seq(|names|, i requires 0 <= i < |names| => DirMember(names[i]))
  }

  function FileMembers(entries: seq<Entry>): (ms: seq<Member>)
    ensures |ms| == |entries| && forall i :: 0 <= i < |ms| ==> ms[i] == FileMember(entries[i])
  {
    seq(|entries|, i requires 0 <= i < |entries| => FileMember(entries[i]))
  }

  ghost function Built(entries: seq<Entry>): seq<Member> {
    DirMembers(SortedSet(Directories(entries))) + FileMembers(SortBy(EntryName, entries))
  }

  method AddDirectories(names: seq<string>) returns (archive: seq<Member>)
    ensures archive == DirMembers(names)
  {
    archive := [];
    for i := 0 to |names|
      invariant archive == DirMembers(names[..i])
    {
      archive := archive + [DirMember(names[i])];
    }
    assert names[..|names|] == names;
  }

  method AddFiles(front: seq<Member>, ordered: seq<Entry>) returns (archive: seq<Member>)
    ensures archive == front + FileMembers(ordered)
  {
    archive := front;
    for i := 0 to |ordered|
      invariant archive == front + FileMembers(ordered[..i])
    {
      archive := archive + [FileMember(ordered[i])];
    }
    assert ordered[..|ordered|] == ordered;
  }

  // `write_archive`: directories first, then the files in name order.
  method WriteArchive(entries: seq<Entry>) returns (archive: seq<Member>)
    ensures archive == Built(entries)
  {
    var ordered := SortBy(EntryName, entries);
    SortSorts(EntryName, entries);
    var names := DirectorySet(ordered);
    DirectoriesPermute(ordered, entries);
    DirectoriesAre(ordered);
    assert names == Directories(entries);
    archive := AddDirectories(SortedSet(names));
    archive := AddFiles(archive, ordered);
  }

  lemma SameEntries(a: seq<Entry>, b: seq<Entry>)
    requires multiset(a) == multiset(b)
    ensures forall e :: e in a <==> e in b
  {
    forall e ensures e in a <==> e in b { assert e in a <==> e in multiset(a); assert e in b <==> e in multiset(b); }
  }

  lemma DirectoriesPermute(a: seq<Entry>, b: seq<Entry>)
    requires multiset(a) == multiset(b)
    ensures Directories(a) == Directories(b)
  {
    SameEntries(a, b);
    DirectoriesAre(a);
    DirectoriesAre(b);
    forall d ensures d in Directories(a) <==> d in Directories(b) {
      assert IsDirectory(a, d) <==> IsDirectory(b, d);
    }
  }

  ghost predicate DistinctNames(entries: seq<Entry>) {
    forall i, j :: 0 <= i < j < |entries| ==> entries[i].name != entries[j].name
  }

  // Any order of the same files gives the same archive.
  lemma BuiltIsCanonical(a: seq<Entry>, b: seq<Entry>)
    requires multiset(a) == multiset(b) && DistinctNames(a)
    ensures Built(a) == Built(b)
  {
    DirectoriesPermute(a, b);
    assert Consistent(EntryName, a);
    OrderIrrelevantIffConsistent(EntryName, a);
    assert SortBy(EntryName, b) == SortBy(EntryName, a);
  }

  // The parent of a directory is listed before it.
  lemma ParentListed(entries: seq<Entry>, dirs: seq<string>, j: nat, dir: string) returns (i: nat)
    requires dirs == SortedSet(Directories(entries)) && j < |dirs| && IsParent(dir, dirs[j]) && dir != dirs[j]
    ensures i < j && dirs[i] == dir
  {
    SortedSetAscending(Directories(entries));
    DirectoriesAre(entries);
    assert dirs[j] in Directories(entries);
    var e :| e in entries && IsParent(dirs[j], e.name);
    assert IsDirectory(entries, dir);
    i :| 0 <= i < |dirs| && dirs[i] == dir;
    PrefixNameLe(dir, dirs[j]);
    if i > j { NameLeAntisymmetric(dir, dirs[j]); }
  }

  // A parent directory comes before everything below it.
  lemma ParentsFirst(entries: seq<Entry>, j: nat, dir: string)
    requires j < |Built(entries)| && IsParent(dir, Built(entries)[j].name) && dir != Built(entries)[j].name
    ensures exists i :: 0 <= i < j && Built(entries)[i] == DirMember(dir)
  {
    var dirs, files := SortedSet(Directories(entries)), SortBy(EntryName, entries);
    SortSorts(EntryName, entries);
    SameEntries(files, entries);
    SortedSetAscending(Directories(entries));
    DirectoriesAre(entries);
    if j < |dirs| {
      var i := ParentListed(entries, dirs, j, dir);
      assert Built(entries)[i] == DirMember(dir);
    } else {
      var e := files[j - |dirs|];
      assert e in files;
      assert IsDirectory(entries, dir);
      assert dir in dirs;
      var i :| 0 <= i < |dirs| && dirs[i] == dir;
      assert Built(entries)[i] == DirMember(dir);
    }
  }

  // ----- Verifying -----

  datatype Refusal = MembershipFailure | DuplicateMember | CaseCollision | OutsidePrefix | UnexpectedMembers
                   | BadTimestamp | NotCurrentSource

  function MemberNames(archive: seq<Member>): (names: seq<string>)
    ensures |names| == |archive| && forall i :: 0 <= i < |names| ==> names[i] == archive[i].name
  {
    seq(|archive|, i requires 0 <= i < |archive| => archive[i].name)
  }

  function Folded(names: seq<string>, fold: string -> string): (r: seq<string>)
    ensures |r| == |names| && forall i :: 0 <= i < |r| ==> r[i] == fold(names[i])
  {
    seq(|names|, i requires 0 <= i < |names| => fold(names[i]))
  }

  predicate IsDirName(name: string) {
    name != [] && name[|name| - 1] == '/'
  }

  function FileNames(names: seq<string>): set<string> {
    set n | n in names && !IsDirName(n)
  }

  // `archive.read`: the last member of that name.
  function Read(archive: seq<Member>, name: string): seq<int> {
    if archive == [] then []
    else if archive[|archive| - 1].name == name then archive[|archive| - 1].data
    else Read(archive[..|archive| - 1], name)
  }

  // `dict(source_entries)`: later entries win.
  function SourceMap(entries: seq<Entry>): map<string, seq<int>> {
    if entries == [] then map[]
    else
      var last := entries[|entries| - 1];
      SourceMap(entries[..|entries| - 1])[last.name := last.data]
  }

  predicate SourceMatches(archive: seq<Member>, source: map<string, seq<int>>) {
    && source.Keys == FileNames(MemberNames(archive))
    && forall n :: n in source ==> Read(archive, n) == source[n]
  }

  // `verify_archive`; `fold` is the case folding of names.
  function Verify(archive: seq<Member>, prefix: string, expected: Option<set<string>>, required: set<string>,
                  forbidden: set<string>, source: Option<seq<Entry>>, fold: string -> string): Option<Refusal>
  {
    var names := MemberNames(archive);
    if required - Elems(names) != {} || forbidden * Elems(names) != {} then Some(MembershipFailure)
    else if |names| != |Elems(names)| then Some(DuplicateMember)
    else if |names| != |Elems(Folded(names, fold))| then Some(CaseCollision)
    else if exists n :: n in names && !(prefix <= n) then Some(OutsidePrefix)
    else if expected.Some? && FileNames(names) != expected.value then Some(UnexpectedMembers)
    else if exists m :: m in archive && m.stamp != FIXED_TIME then Some(BadTimestamp)
    else if source.Some? && !SourceMatches(archive, SourceMap(source.value)) then Some(NotCurrentSource)
    else None
  }

  lemma {:induction false} SizeIffDistinct(names: seq<string>)
    ensures |Elems(names)| <= |names| && (|names| == |Elems(names)| <==> Simple(names))
    decreases |names|
  {
    if names != [] {
      var rest, last := names[..|names| - 1], names[|names| - 1];
      SizeIffDistinct(rest);
      LastApart(names);
      ElemsAppend(rest, last);
      if last in rest {
        assert Elems(names) == Elems(rest);
        var k :| 0 <= k < |rest| && rest[k] == last;
        assert names[k] == names[|names| - 1];
      } else {
        assert |Elems(names)| == |Elems(rest)| + 1;
      }
    }
  }

  // What an accepted archive satisfies, and every archive that satisfies it is accepted.
  ghost predicate Acceptable(archive: seq<Member>, prefix: string, expected: Option<set<string>>, required: set<string>,
                             forbidden: set<string>, source: Option<seq<Entry>>, fold: string -> string)
  {
    var names := MemberNames(archive);
    && required <= Elems(names) && forbidden !! Elems(names)
    && Simple(Folded(names, fold))
    && (forall m :: m in archive ==> prefix <= m.name && m.stamp == FIXED_TIME)
    && (expected.Some? ==> FileNames(names) == expected.value)
    && (source.Some? ==> SourceMatches(archive, SourceMap(source.value)))
  }

  lemma VerifyIffAcceptable(archive: seq<Member>, prefix: string, expected: Option<set<string>>, required: set<string>,
                            forbidden: set<string>, source: Option<seq<Entry>>, fold: string -> string)
    ensures Verify(archive, prefix, expected, required, forbidden, source, fold).None?
       <==> Acceptable(archive, prefix, expected, required, forbidden, source, fold)
  {
    var names := MemberNames(archive);
    SizeIffDistinct(names);
    SizeIffDistinct(Folded(names, fold));
    FoldedDistinct(names, fold);
    MembersUnderPrefix(archive, prefix);
    NothingLeft(required, Elems(names));
    NothingShared(forbidden, Elems(names));
    assert Simple(names) <==> |names| == |Elems(names)|;
    assert |Folded(names, fold)| == |names|;
  }

  // Each refusal says what is wrong, and what was already found right.
  lemma RefusalMeaning(archive: seq<Member>, prefix: string, expected: Option<set<string>>, required: set<string>,
                       forbidden: set<string>, source: Option<seq<Entry>>, fold: string -> string)
    ensures var r := Verify(archive, prefix, expected, required, forbidden, source, fold);
            var names := MemberNames(archive);
            var members := required <= Elems(names) && forbidden !! Elems(names);
            var under := forall m :: m in archive ==> prefix <= m.name;
            var apart := members && Simple(Folded(names, fold));
            var listed := apart && under && (expected.Some? ==> FileNames(names) == expected.value);
            var timed := forall m :: m in archive ==> m.stamp == (1980, 1, 1, 0, 0, 0);
            && (r == Some(MembershipFailure) <==> !members)
            && (r == Some(DuplicateMember) <==> members && !Simple(names))
            && (r == Some(CaseCollision) <==> members && Simple(names) && !Simple(Folded(names, fold)))
            && (r == Some(OutsidePrefix) <==> apart && !under)
            && (r == Some(UnexpectedMembers) <==> apart && under && !listed)
            && (r == Some(BadTimestamp) <==> listed && !timed)
            && (r == Some(NotCurrentSource) <==>
                listed && timed && source.Some? && !SourceMatches(archive, SourceMap(source.value)))
  {
    var names := MemberNames(archive);
    SizeIffDistinct(names);
    SizeIffDistinct(Folded(names, fold));
    FoldedDistinct(names, fold);
    MembersUnderPrefix(archive, prefix);
    NothingLeft(required, Elems(names));
    NothingShared(forbidden, Elems(names));
    assert |Folded(names, fold)| == |names|;
  }

  lemma NothingShared(a: set<string>, b: set<string>)
    ensures a * b == {} <==> a !! b
  {
    if a * b == {} {
      forall x | x in a ensures x !in b { assert x !in a * b; }
    }
  }

  lemma FoldedDistinct(names: seq<string>, fold: string -> string)
    ensures Simple(Folded(names, fold)) ==> Simple(names)
  {
    if Simple(Folded(names, fold)) {
      var folded := Folded(names, fold);
      forall i, j | 0 <= i < j < |names| ensures names[i] != names[j] { assert folded[i] != folded[j]; }
    }
  }

  lemma MembersUnderPrefix(archive: seq<Member>, prefix: string)
    ensures (forall n :: n in MemberNames(archive) ==> prefix <= n) <==> (forall m :: m in archive ==> prefix <= m.name)
  {
    var names := MemberNames(archive);
    if forall n :: n in names ==> prefix <= n {
      forall m | m in archive ensures prefix <= m.name {
        var i :| 0 <= i < |archive| && archive[i] == m;
        assert names[i] in names;
      }
    }
    if forall m :: m in archive ==> prefix <= m.name {
      forall n | n in names ensures prefix <= n {
        var i :| 0 <= i < |names| && names[i] == n;
        assert archive[i] in archive;
      }
    }
  }

  // ----- Builder and verifier agree -----

  lemma {:induction false} ReadFinds(archive: seq<Member>, m: Member)
    requires m in archive && Simple(MemberNames(archive))
    ensures Read(archive, m.name) == m.data
    decreases |archive|
  {
    var rest, last := archive[..|archive| - 1], archive[|archive| - 1];
    var names := MemberNames(archive);
    if last != m {
      var k :| 0 <= k < |archive| && archive[k] == m;
      assert names[k] != names[|archive| - 1];
      assert rest[k] == m && MemberNames(rest) == names[..|archive| - 1];
      ReadFinds(rest, m);
    }
  }

  lemma {:induction false} SourceMapHas(entries: seq<Entry>)
    ensures forall n :: n in SourceMap(entries) <==> exists e :: e in entries && e.name == n
    ensures forall n :: n in SourceMap(entries) ==> Entry(n, SourceMap(entries)[n]) in entries
    decreases |entries|
  {
    if entries != [] {
      var rest, last := entries[..|entries| - 1], entries[|entries| - 1];
      LastApart(entries);
      SourceMapHas(rest);
      forall n ensures n in SourceMap(entries) <==> exists e :: e in entries && e.name == n {
        if n == last.name { assert last in entries; }
        if n in SourceMap(rest) { var e :| e in rest && e.name == n; assert e in entries; }
      }
      forall n | n in SourceMap(entries) ensures Entry(n, SourceMap(entries)[n]) in entries {
        if n == last.name { assert last in entries; } else { assert Entry(n, SourceMap(rest)[n]) in rest; }
      }
    }
  }

  // The data recorded for a name is that of the last entry with it.
  ghost predicate LastData(entries: seq<Entry>, name: string, data: seq<int>) {
    exists k :: 0 <= k < |entries| && entries[k] == Entry(name, data) && NotAfter(entries, name, k)
  }

  ghost predicate NotAfter(entries: seq<Entry>, name: string, k: int) {
    forall later :: 0 <= k < later < |entries| ==> entries[later].name != name
  }

  lemma {:induction false} SourceMapIsLast(entries: seq<Entry>, name: string)
    requires name in SourceMap(entries)
    ensures LastData(entries, name, SourceMap(entries)[name])
    decreases |entries|
  {
    var n := |entries| - 1;
    if entries[n].name == name {
      assert NotAfter(entries, name, n);
    } else {
      SourceMapIsLast(entries[..n], name);
      var data := SourceMap(entries[..n])[name];
      var k :| 0 <= k < n && entries[..n][k] == Entry(name, data) && NotAfter(entries[..n], name, k);
      forall later | k < later < |entries| ensures entries[later].name != name {
        if later < n { assert entries[..n][later] == entries[later]; }
      }
      assert NotAfter(entries, name, k) && entries[k] == Entry(name, data);
    }
  }

  // An accepted archive has no duplicate member, and its files are exactly the source's, byte for byte.
  lemma AcceptedIsSource(archive: seq<Member>, prefix: string, expected: Option<set<string>>, required: set<string>,
                         forbidden: set<string>, source: seq<Entry>, fold: string -> string)
    requires Verify(archive, prefix, expected, required, forbidden, Some(source), fold).None?
    ensures Simple(MemberNames(archive))
    ensures forall m :: m in archive && !(m.name != "" && m.name[|m.name| - 1] == '/') ==>
      LastData(source, m.name, m.data)
    ensures forall e :: e in source ==> exists m :: m in archive && m.name == e.name
  {
    var names := MemberNames(archive);
    VerifyIffAcceptable(archive, prefix, expected, required, forbidden, Some(source), fold);
    FoldedDistinct(names, fold);
    forall m | m in archive && !IsDirName(m.name) ensures LastData(source, m.name, m.data) {
      var i :| 0 <= i < |archive| && archive[i] == m;
      assert names[i] in names;
      assert m.name in FileNames(names);
      ReadFinds(archive, m);
      SourceMapIsLast(source, m.name);
    }
    SourceMapHas(source);
    forall e | e in source ensures exists m :: m in archive && m.name == e.name {
      assert e.name in SourceMap(source) && e.name in FileNames(names);
      var i :| 0 <= i < |names| && names[i] == e.name;
      assert archive[i] in archive;
    }
  }

  ghost function EntryNames(entries: seq<Entry>): set<string> {
    set e | e in entries :: e.name
  }

  // The condition on the files under which the builder's archive passes its own verifier.
  ghost predicate Buildable(entries: seq<Entry>, prefix: string, required: set<string>, forbidden: set<string>,
                            fold: string -> string)
  {
    && required <= MembersOf(entries) && forbidden !! MembersOf(entries)
    && (forall e :: e in entries ==> !IsDirName(e.name) && prefix <= e.name)
    && (forall d :: IsDirectory(entries, d) ==> prefix <= d)
    && DistinctNames(entries) && FoldApart(MembersOf(entries), fold)
  }

  // The names of the members: the files and their directories.
  ghost function MembersOf(entries: seq<Entry>): set<string> {
    Directories(entries) + EntryNames(entries)
  }

  // Case folding keeps these names apart.
  ghost predicate FoldApart(names: set<string>, fold: string -> string) {
    forall a, b :: a in names && b in names && fold(a) == fold(b) ==> a == b
  }

  function NamesOf(entries: seq<Entry>): (names: seq<string>)
    ensures |names| == |entries| && forall i :: 0 <= i < |names| ==> names[i] == entries[i].name
  {
    seq(|entries|, i requires 0 <= i < |entries| => entries[i].name)
  }

  lemma NamesOfElems(entries: seq<Entry>)
    ensures Elems(NamesOf(entries)) == EntryNames(entries)
  {
    var names := NamesOf(entries);
    forall n ensures n in names <==> n in EntryNames(entries) {
      if n in names { var i :| 0 <= i < |names| && names[i] == n; assert entries[i] in entries; }
      if e :| e in entries && e.name == n { var i :| 0 <= i < |entries| && entries[i] == e; assert names[i] == n; }
    }
  }

  lemma DistinctIffSize(entries: seq<Entry>)
    ensures DistinctNames(entries) <==> |EntryNames(entries)| == |entries|
    ensures Simple(NamesOf(entries)) <==> DistinctNames(entries)
  {
    var names := NamesOf(entries);
    NamesOfElems(entries);
    SizeIffDistinct(names);
    if Simple(names) {
      forall i, j | 0 <= i < j < |entries| ensures entries[i].name != entries[j].name { assert names[i] != names[j]; }
    }
  }

  // Sorting keeps names distinct.
  lemma DistinctSorted(entries: seq<Entry>)
    ensures DistinctNames(SortBy(EntryName, entries)) <==> DistinctNames(entries)
    ensures EntryNames(SortBy(EntryName, entries)) == EntryNames(entries)
  {
    var files := SortBy(EntryName, entries);
    SortSorts(EntryName, entries);
    SameEntries(files, entries);
    assert EntryNames(files) == EntryNames(entries);
    assert |files| == |multiset(files)| == |multiset(entries)| == |entries|;
    DistinctIffSize(files);
    DistinctIffSize(entries);
  }

  lemma JoinedSimple(a: seq<string>, b: seq<string>)
    requires Simple(a) && Elems(a) !! Elems(b)
    ensures Simple(a + b) <==> Simple(b)
  {
    if Simple(b) {
      var s := a + b;
      forall i, j | 0 <= i < j < |s| ensures s[i] != s[j] {
        if i < |a| <= j { assert a[i] in Elems(a) && b[j - |a|] in Elems(b); }
      }
    }
    if Simple(a + b) {
      forall i, j | 0 <= i < j < |b| ensures b[i] != b[j] { assert (a + b)[|a| + i] != (a + b)[|a| + j]; }
    }
  }

  lemma FoldedIff(names: seq<string>, fold: string -> string)
    ensures Simple(Folded(names, fold)) <==> Simple(names) && FoldApart(Elems(names), fold)
  {
    var folded := Folded(names, fold);
    FoldedDistinct(names, fold);
    if Simple(folded) {
      forall a, b | a in Elems(names) && b in Elems(names) && fold(a) == fold(b) ensures a == b {
        var i :| 0 <= i < |names| && names[i] == a;
        var j :| 0 <= j < |names| && names[j] == b;
        assert folded[i] == folded[j];
      }
    }
    if Simple(names) && FoldApart(Elems(names), fold) {
      forall i, j | 0 <= i < j < |names| ensures folded[i] != folded[j] {
        assert names[i] in Elems(names) && names[j] in Elems(names);
      }
    }
  }

  lemma BuiltNames(entries: seq<Entry>)
    ensures MemberNames(Built(entries)) == SortedSet(Directories(entries)) + NamesOf(SortBy(EntryName, entries))
  {
  }

  lemma DirectoryList(entries: seq<Entry>)
    ensures Simple(SortedSet(Directories(entries))) && Elems(SortedSet(Directories(entries))) == Directories(entries)
  {
    SortedSetAscending(Directories(entries));
  }

  lemma FileList(entries: seq<Entry>)
    ensures Simple(NamesOf(SortBy(EntryName, entries))) <==> DistinctNames(entries)
    ensures Elems(NamesOf(SortBy(EntryName, entries))) == EntryNames(entries)
  {
    var files := SortBy(EntryName, entries);
    DistinctSorted(entries);
    NamesOfElems(files);
    DistinctIffSize(files);
  }

  lemma ElemsJoin(a: seq<string>, b: seq<string>)
    ensures Elems(a + b) == Elems(a) + Elems(b)
  {
  }

  // The member names, and when their foldings stay apart, in terms of the files.
  lemma MembersFoldApart(entries: seq<Entry>, fold: string -> string)
    requires forall e :: e in entries ==> !IsDirName(e.name)
    ensures Simple(Folded(MemberNames(Built(entries)), fold))
       <==> DistinctNames(entries) && FoldApart(MembersOf(entries), fold)
  {
    var dirs, files := SortedSet(Directories(entries)), NamesOf(SortBy(EntryName, entries));
    BuiltNames(entries);
    DirectoryList(entries);
    FileList(entries);
    DirectoriesApart(entries);
    JoinedSimple(dirs, files);
    ElemsJoin(dirs, files);
    FoldedIff(dirs + files, fold);
  }

  lemma DirectoriesApart(entries: seq<Entry>)
    requires forall e :: e in entries ==> !IsDirName(e.name)
    ensures Directories(entries) !! EntryNames(entries)
  {
    DirectoriesAre(entries);
    forall n | n in EntryNames(entries) ensures n !in Directories(entries) {
      var e :| e in entries && e.name == n;
    }
  }

  lemma BuiltHasFile(entries: seq<Entry>, e: Entry)
    requires e in entries
    ensures FileMember(e) in Built(entries)
  {
    var dirs, files := SortedSet(Directories(entries)), SortBy(EntryName, entries);
    SortSorts(EntryName, entries);
    SameEntries(files, entries);
    var i :| 0 <= i < |files| && files[i] == e;
    assert Built(entries)[|dirs| + i] == FileMember(e);
  }

  lemma BuiltHasDirectory(entries: seq<Entry>, d: string)
    requires IsDirectory(entries, d)
    ensures DirMember(d) in Built(entries)
  {
    var dirs := SortedSet(Directories(entries));
    DirectoriesAre(entries);
    var i :| 0 <= i < |dirs| && dirs[i] == d;
    assert Built(entries)[i] == DirMember(d);
  }

  // A member of the built archive stands for a directory or for a file.
  ghost predicate FromEntries(entries: seq<Entry>, m: Member) {
    m.stamp == FIXED_TIME && (IsDirectory(entries, m.name) || Entry(m.name, m.data) in entries)
  }

  lemma BuiltFromEntries(entries: seq<Entry>, m: Member)
    requires m in Built(entries)
    ensures FromEntries(entries, m)
  {
    var dirs, files := SortedSet(Directories(entries)), SortBy(EntryName, entries);
    SortSorts(EntryName, entries);
    SameEntries(files, entries);
    DirectoriesAre(entries);
    var i :| 0 <= i < |Built(entries)| && Built(entries)[i] == m;
    if i < |dirs| { assert dirs[i] in dirs; } else { assert files[i - |dirs|] in files; }
  }

  lemma BuiltMembers(entries: seq<Entry>)
    ensures forall e :: e in entries ==> FileMember(e) in Built(entries)
    ensures forall d :: IsDirectory(entries, d) ==> DirMember(d) in Built(entries)
    ensures forall m :: m in Built(entries) ==> FromEntries(entries, m)
  {
    forall e | e in entries ensures FileMember(e) in Built(entries) { BuiltHasFile(entries, e); }
    forall d | IsDirectory(entries, d) ensures DirMember(d) in Built(entries) { BuiltHasDirectory(entries, d); }
    forall m | m in Built(entries) ensures FromEntries(entries, m) { BuiltFromEntries(entries, m); }
  }

  lemma MemberNamed(archive: seq<Member>, n: string)
    ensures n in MemberNames(archive) <==> exists m :: m in archive && m.name == n
  {
    var names := MemberNames(archive);
    if n in names { var i :| 0 <= i < |names| && names[i] == n; assert archive[i] in archive; }
    if m :| m in archive && m.name == n { var i :| 0 <= i < |archive| && archive[i] == m; assert names[i] == n; }
  }

  // The plain names among the members are exactly the files.
  lemma BuiltFiles(entries: seq<Entry>)
    requires forall e :: e in entries ==> !IsDirName(e.name)
    ensures FileNames(MemberNames(Built(entries))) == EntryNames(entries)
  {
    var archive := Built(entries);
    BuiltMembers(entries);
    forall n ensures n in FileNames(MemberNames(archive)) <==> n in EntryNames(entries) {
      MemberNamed(archive, n);
      if n in FileNames(MemberNames(archive)) { var m :| m in archive && m.name == n; }
      if n in EntryNames(entries) { var e :| e in entries && e.name == n; assert FileMember(e) in archive; }
    }
  }

  lemma BuiltMatchesSource(entries: seq<Entry>)
    requires (forall e :: e in entries ==> !IsDirName(e.name)) && Simple(MemberNames(Built(entries)))
    ensures SourceMatches(Built(entries), SourceMap(entries))
  {
    var archive, source := Built(entries), SourceMap(entries);
    BuiltFiles(entries);
    BuiltMembers(entries);
    SourceMapHas(entries);
    assert source.Keys == EntryNames(entries);
    forall n | n in source ensures Read(archive, n) == source[n] {
      var e := Entry(n, source[n]);
      assert FileMember(e) in archive;
      ReadFinds(archive, FileMember(e));
    }
  }

  lemma BuiltElems(entries: seq<Entry>)
    ensures Elems(MemberNames(Built(entries))) == MembersOf(entries)
  {
    BuiltNames(entries);
    DirectoryList(entries);
    FileList(entries);
    ElemsJoin(SortedSet(Directories(entries)), NamesOf(SortBy(EntryName, entries)));
  }

  lemma BuildableIsAcceptable(entries: seq<Entry>, prefix: string, required: set<string>, forbidden: set<string>,
                              fold: string -> string)
    requires Buildable(entries, prefix, required, forbidden, fold)
    ensures Acceptable(Built(entries), prefix, Some(EntryNames(entries)), required, forbidden, Some(entries), fold)
  {
    var archive := Built(entries);
    BuiltElems(entries);
    MembersFoldApart(entries, fold);
    FoldedDistinct(MemberNames(archive), fold);
    BuiltFiles(entries);
    BuiltMatchesSource(entries);
    forall m | m in archive ensures prefix <= m.name && m.stamp == FIXED_TIME { BuiltFromEntries(entries, m); }
  }

  lemma AcceptableIsBuildable(entries: seq<Entry>, prefix: string, required: set<string>, forbidden: set<string>,
                              fold: string -> string)
    requires Acceptable(Built(entries), prefix, Some(EntryNames(entries)), required, forbidden, Some(entries), fold)
    ensures Buildable(entries, prefix, required, forbidden, fold)
  {
    var archive := Built(entries);
    BuiltElems(entries);
    forall e | e in entries ensures !IsDirName(e.name) && prefix <= e.name {
      BuiltHasFile(entries, e);
      assert FileMember(e) in archive && e.name in EntryNames(entries);
    }
    forall d | IsDirectory(entries, d) ensures prefix <= d {
      BuiltHasDirectory(entries, d);
      assert DirMember(d) in archive;
    }
    MembersFoldApart(entries, fold);
  }

  // The builder's archive passes against its own files exactly when they are buildable.
  lemma BuiltVerifiesIff(entries: seq<Entry>, prefix: string, required: set<string>, forbidden: set<string>,
                         fold: string -> string)
    ensures Verify(Built(entries), prefix, Some(EntryNames(entries)), required, forbidden, Some(entries), fold).None?
       <==> Buildable(entries, prefix, required, forbidden, fold)
  {
    var expected := Some(EntryNames(entries));
    VerifyIffAcceptable(Built(entries), prefix, expected, required, forbidden, Some(entries), fold);
    if Buildable(entries, prefix, required, forbidden, fold) {
      BuildableIsAcceptable(entries, prefix, required, forbidden, fold);
    }
    if Acceptable(Built(entries), prefix, expected, required, forbidden, Some(entries), fold) {
      AcceptableIsBuildable(entries, prefix, required, forbidden, fold);
    }
  }

  // Files whose names only folding confuses are built into an archive that the verifier refuses for it.
  lemma CollidingNamesAreRefused(entries: seq<Entry>, prefix: string, fold: string -> string)
    requires (forall e :: e in entries ==> !IsDirName(e.name)) && DistinctNames(entries)
    requires !FoldApart(MembersOf(entries), fold)
    ensures Verify(Built(entries), prefix, Some(EntryNames(entries)), {}, {}, Some(entries), fold)
      == Some(CaseCollision)
  {
    var names := MemberNames(Built(entries));
    BuiltElems(entries);
    MembersFoldApart(entries, fold);
    MembersDistinct(entries);
    SizeIffDistinct(names);
    SizeIffDistinct(Folded(names, fold));
  }

  lemma MembersDistinct(entries: seq<Entry>)
    requires (forall e :: e in entries ==> !IsDirName(e.name)) && DistinctNames(entries)
    ensures Simple(MemberNames(Built(entries)))
  {
    var same: string -> string := n => n;
    MembersFoldApart(entries, same);
    FoldedDistinct(MemberNames(Built(entries)), same);
  }

  // For instance two files in one directory whose names differ in case alone.
  lemma CaseAloneIsRefused(fold: string -> string)
    requires fold("p/A") == fold("p/a")
    ensures var entries := [Entry("p/A", []), Entry("p/a", [])];
            Verify(Built(entries), "p/", Some(EntryNames(entries)), {}, {}, Some(entries), fold) == Some(CaseCollision)
  {
    var entries := [Entry("p/A", []), Entry("p/a", [])];
    assert entries[0] in entries && entries[1] in entries;
    assert "p/A" in EntryNames(entries) && "p/a" in EntryNames(entries) && "p/A"[2] != "p/a"[2];
    CollidingNamesAreRefused(entries, "p/", fold);
  }

  // Under a prefix of one component every directory is under it too.
  lemma OneComponentPrefix(entries: seq<Entry>, component: string, d: string)
    requires '/' !in component && (forall e :: e in entries ==> component + "/" <= e.name) && IsDirectory(entries, d)
    ensures component + "/" <= d
  {
    var e :| e in entries && IsParent(d, e.name);
    var prefix := component + "/";
    assert prefix <= e.name && d <= e.name;
    forall i | 0 <= i < |component| ensures e.name[i] != '/' {
      assert e.name[i] == prefix[i] == component[i] && component[i] in component;
    }
    assert e.name[|d| - 1] == d[|d| - 1] == '/';
    assert d[..|prefix|] == e.name[..|prefix|] == prefix;
  }
}
