/** The byte stream hashed into the source identity: the traversal roots, then each
    file's name, length and contents. Two different source trees must not share it. */
module SourceIdentity {
  import opened Orders
  import opened Powers
  import opened Sequences
  import opened Sorting

  type Byte = b: int | 0 <= b < 256

  datatype File = File(name: seq<Byte>, data: seq<Byte>)
  // Roots sorted and files in domain order, names as UTF-8 bytes.
  datatype Tree = Tree(roots: seq<seq<Byte>>, files: seq<File>)

  const HEADER: seq<Byte> := [115, 111, 117, 114, 99, 101, 45, 114, 111, 111, 116, 115]  // "source-roots"
  const FILES: seq<Byte> := [102, 105, 108, 101, 115]  // "files"
  // "driver/Cargo.lock"
  const LOCK: seq<Byte> := [100, 114, 105, 118, 101, 114, 47, 67, 97, 114, 103, 111, 46, 108, 111, 99, 107]
  const SLASH: Byte := 47
  const BACKSLASH: Byte := 92
  const F: Byte := 102

  // `n` in `k` little-endian bytes.
  function Little(n: nat, k: nat): (bytes: seq<Byte>)
    ensures |bytes| == k
  {
    if k == 0 then [] else [n % 256] + Little(n / 256, k - 1)
  }

  function RootsPart(roots: seq<seq<Byte>>): seq<Byte> {
    if roots == [] then [] else (roots[0] + [0]) + RootsPart(roots[1..])
  }

  function FilePart(f: File): seq<Byte> {
    (f.name + [0]) + (Little(|f.data|, 8) + f.data)
  }

  function FilesPart(files: seq<File>): seq<Byte> {
    if files == [] then [] else FilePart(files[0]) + FilesPart(files[1..])
  }

  function Stream(t: Tree): seq<Byte> {
    (HEADER + [0]) + (RootsPart(t.roots) + ((FILES + [0]) + FilesPart(t.files)))
  }

  // Root "a", and file "b" with the one byte 7: what is fed for each of them.
  lemma SmallStream(root: seq<Byte>, f: File, a: seq<Byte>, b: seq<Byte>)
    requires root == [97] && f == File([98], [7]) && a == [97, 0] && b == [98, 0, 1, 0, 0, 0, 0, 0, 0, 0, 7]
    ensures Stream(Tree([root], [f])) == (HEADER + [0]) + (a + ((FILES + [0]) + b))
  {
    SmallFile(f);
    SmallParts(root, f);
  }

  lemma SmallParts(root: seq<Byte>, f: File)
    ensures RootsPart([root]) == root + [0] && FilesPart([f]) == FilePart(f)
  {
    assert [f][1..] == [] && FilesPart([f]) == FilePart(f) + [];
    assert [root][1..] == [] && RootsPart([root]) == (root + [0]) + [];
  }

  lemma SmallFile(f: File)
    requires f == File([98], [7])
    ensures FilePart(f) == [98, 0, 1, 0, 0, 0, 0, 0, 0, 0, 7]
  {
    assert Little(0, 3) == [0, 0, 0];
    assert Little(0, 5) == [0, 0, 0, 0, 0];
    assert Little(0, 7) == [0, 0, 0, 0, 0, 0, 0];
    assert Little(1, 8) == [1] + Little(0, 7);
  }

  lemma {:induction false} RootsPartAppend(roots: seq<seq<Byte>>, r: seq<Byte>)
    ensures RootsPart(roots + [r]) == RootsPart(roots) + (r + [0])
  {
    if roots == [] {
      assert [r][1..] == [] && RootsPart([r]) == (r + [0]) + RootsPart([]);
    } else {
      assert (roots + [r])[1..] == roots[1..] + [r];
      RootsPartAppend(roots[1..], r);
    }
  }

  lemma {:induction false} FilesPartAppend(files: seq<File>, f: File)
    ensures FilesPart(files + [f]) == FilesPart(files) + FilePart(f)
  {
    if files == [] {
      assert [f][1..] == [] && FilesPart([f]) == FilePart(f) + FilesPart([]);
    } else {
      assert (files + [f])[1..] == files[1..] + [f];
      FilesPartAppend(files[1..], f);
    }
  }

  // A root as it is fed: the platform's separator becomes a slash.
  function Slashed(name: seq<Byte>, separator: Byte): seq<Byte> {
    seq(|name|, i requires 0 <= i < |name| => if name[i] == separator then SLASH else name[i])
  }

  function SlashedAll(names: seq<seq<Byte>>, separator: Byte): seq<seq<Byte>> {
    seq(|names|, i requires 0 <= i < |names| => Slashed(names[i], separator))
  }

  // The sequence of updates `source_identity` feeds to the digest, for roots already sorted.
  method Feed(roots: seq<seq<Byte>>, separator: Byte, files: seq<File>) returns (fed: seq<Byte>)
    ensures fed == Stream(Tree(SlashedAll(roots, separator), files))
  {
    ghost var slashed := SlashedAll(roots, separator);
    fed := HEADER + [0];
    for i := 0 to |roots|
      invariant fed == (HEADER + [0]) + RootsPart(slashed[..i])
    {
      assert slashed[..i + 1] == slashed[..i] + [slashed[i]];
      FeedRoot(HEADER + [0], slashed[..i], slashed[i]);
      fed := fed + Slashed(roots[i], separator);
      fed := fed + [0];
    }
    assert slashed[..|roots|] == slashed;
    fed := fed + (FILES + [0]);
    ghost var front := fed;
    for i := 0 to |files|
      invariant fed == front + FilesPart(files[..i])
    {
      var f := files[i];
      assert files[..i + 1] == files[..i] + [f];
      FeedFile(front, files[..i], f);
      fed := fed + f.name;
      fed := fed + [0];
      fed := fed + Little(|f.data|, 8);
      fed := fed + f.data;
    }
    assert files[..|files|] == files;
    FeedOrder(HEADER + [0], RootsPart(slashed), FILES + [0], FilesPart(files));
  }

  lemma FeedRoot(front: seq<Byte>, roots: seq<seq<Byte>>, r: seq<Byte>)
    ensures ((front + RootsPart(roots)) + r) + [0] == front + RootsPart(roots + [r])
  {
    RootsPartAppend(roots, r);
  }

  lemma FeedFile(front: seq<Byte>, files: seq<File>, f: File)
    ensures (((front + FilesPart(files)) + f.name) + [0]) + Little(|f.data|, 8) + f.data
      == front + FilesPart(files + [f])
  {
    FilesPartAppend(files, f);
  }

  lemma FeedOrder(a: seq<Byte>, b: seq<Byte>, c: seq<Byte>, d: seq<Byte>)
    ensures ((a + b) + c) + d == a + (b + (c + d))
  {
  }

  // ----- Unique decoding -----

  ghost predicate Terminated(name: seq<Byte>) {
    0 !in name
  }

  // A name ends at the first zero byte.
  lemma NameApart(a: seq<Byte>, x: seq<Byte>, b: seq<Byte>, y: seq<Byte>)
    requires Terminated(a) && Terminated(b) && (a + [0]) + x == (b + [0]) + y
    ensures a == b && x == y
  {
    FirstZero(a, x);
    FirstZero(b, y);
    var s, t := (a + [0]) + x, (b + [0]) + y;
    assert |a| == |b|;
    assert s[..|a|] == a && t[..|b|] == b;
    assert s[|a| + 1..] == x && t[|b| + 1..] == y;
  }

  lemma FirstZero(a: seq<Byte>, x: seq<Byte>)
    requires Terminated(a)
    ensures var s := (a + [0]) + x; s[|a|] == 0 && forall i :: 0 <= i < |a| ==> s[i] != 0
  {
    var s := (a + [0]) + x;
    forall i | 0 <= i < |a| ensures s[i] != 0 { assert s[i] == a[i] && a[i] in a; }
  }

  lemma Joined(a: seq<Byte>, x: seq<Byte>, b: seq<Byte>, y: seq<Byte>)
    requires a + x == b + y && |a| == |b|
    ensures a == b && x == y
  {
    assert a == (a + x)[..|a|] && b == (b + y)[..|b|];
    assert x == (a + x)[|a|..] && y == (b + y)[|b|..];
  }

  function Pow256(k: nat): (p: nat)
    ensures p > 0
  {
    if k == 0 then 1 else 256 * Pow256(k - 1)
  }

  lemma {:induction false} LittleInjective(m: nat, n: nat, k: nat)
    requires m < Pow256(k) && n < Pow256(k) && Little(m, k) == Little(n, k)
    ensures m == n
  {
    if k > 0 {
      assert Little(m, k)[0] == m % 256 && Little(n, k)[0] == n % 256;
      assert Little(m, k)[1..] == Little(m / 256, k - 1) && Little(n, k)[1..] == Little(n / 256, k - 1);
      LittleInjective(m / 256, n / 256, k - 1);
    }
  }

  // Byte `i` weighs 256 to the power of `i`.
  lemma {:induction false} LittleAt(n: nat, k: nat, i: nat)
    requires i < k
    ensures Little(n, k)[i] == n / Pow256(i) % 256
  {
    if i > 0 {
      LittleAt(n / 256, k - 1, i - 1);
      assert Little(n, k)[i] == Little(n / 256, k - 1)[i - 1];
      DivideTwice(n, Pow256(i - 1));
    }
  }

  lemma DivideTwice(n: nat, p: nat)
    requires p > 0
    ensures n / 256 / p == n / (256 * p)
  {
    var q, r := n / 256 / p, n / 256 % p;
    assert n / 256 == q * p + r;
    var low := n % 256 + 256 * r;
    assert n == q * (256 * p) + low && 0 <= low < 256 * p;
    Quotient(n, 256 * p, q, low);
  }

  lemma Quotient(n: nat, d: nat, q: nat, r: nat)
    requires r < d && n == q * d + r
    ensures n / d == q
  {
    var e := n / d - q;
    assert e * d == r - n % d;
    assert (e >= 1 ==> e * d >= d) && (e <= -1 ==> -e * d >= d);
  }

  lemma LengthLimitIsPow()
    ensures Pow256(8) == WORD_LIMIT
  {
    assert Pow256(2) == 0x1_0000;
    assert Pow256(4) == 0x1_0000_0000;
    assert Pow256(6) == 0x1_0000_0000_0000;
  }

  lemma FileThen(f: File, x: seq<Byte>)
    ensures FilePart(f) + x == (f.name + [0]) + (Little(|f.data|, 8) + (f.data + x))
  {
    var size := Little(|f.data|, 8);
    Regroup(f.name + [0], size + f.data, x);
    Regroup(size, f.data, x);
  }

  lemma FileApart(f: File, x: seq<Byte>, g: File, y: seq<Byte>)
    requires Terminated(f.name) && Terminated(g.name) && |f.data| < WORD_LIMIT && |g.data| < WORD_LIMIT
    requires FilePart(f) + x == FilePart(g) + y
    ensures f == g && x == y
  {
    FileThen(f, x);
    FileThen(g, y);
    NameApart(f.name, Little(|f.data|, 8) + (f.data + x), g.name, Little(|g.data|, 8) + (g.data + y));
    Joined(Little(|f.data|, 8), f.data + x, Little(|g.data|, 8), g.data + y);
    LengthLimitIsPow();
    LittleInjective(|f.data|, |g.data|, 8);
    Joined(f.data, x, g.data, y);
  }

  lemma {:induction false} FilesUnique(a: seq<File>, b: seq<File>)
    requires forall f :: f in a ==> Terminated(f.name) && |f.data| < WORD_LIMIT
    requires forall f :: f in b ==> Terminated(f.name) && |f.data| < WORD_LIMIT
    requires FilesPart(a) == FilesPart(b)
    ensures a == b
    decreases |a|
  {
    if a != [] && b != [] {
      assert a[0] in a && b[0] in b;
      FileApart(a[0], FilesPart(a[1..]), b[0], FilesPart(b[1..]));
      FilesUnique(a[1..], b[1..]);
      assert a == [a[0]] + a[1..] && b == [b[0]] + b[1..];
    }
  }

  // ----- Where the roots end -----

  // The first name in the stream of roots, or the marker that ends them; and what follows it.
  ghost function HeadName(roots: seq<seq<Byte>>): seq<Byte> {
    if roots == [] then FILES else roots[0]
  }

  ghost function AfterName(roots: seq<seq<Byte>>, x: seq<Byte>): seq<Byte> {
    if roots == [] then x else RootsPart(roots[1..]) + ((FILES + [0]) + x)
  }

  lemma FirstName(roots: seq<seq<Byte>>, x: seq<Byte>)
    requires forall r :: r in roots ==> Terminated(r)
    ensures RootsPart(roots) + ((FILES + [0]) + x) == (HeadName(roots) + [0]) + AfterName(roots, x)
    ensures Terminated(HeadName(roots))
  {
    var tail := (FILES + [0]) + x;
    if roots == [] {
      assert [] + tail == tail;
    } else {
      assert roots[0] in roots;
      Regroup(roots[0] + [0], RootsPart(roots[1..]), tail);
    }
  }

  // Every root behind one named "files" starts at 'f' or later.
  ghost predicate LateBehindFiles(roots: seq<seq<Byte>>) {
    forall i, j :: 0 <= i < j < |roots| && roots[i] == FILES ==> roots[j] != [] && roots[j][0] >= F
  }

  ghost predicate StartsEarly(x: seq<Byte>) {
    x != [] && x[0] < F
  }

  // Behind a root named "files" the stream cannot be the files of another tree: those start before 'f'.
  lemma NotEarly(roots: seq<seq<Byte>>, x: seq<Byte>)
    requires roots != [] && roots[0] == FILES && LateBehindFiles(roots)
    ensures !StartsEarly(AfterName(roots, x))
  {
    var rest := roots[1..];
    var tail := (FILES + [0]) + x;
    if rest == [] {
      assert AfterName(roots, x) == [] + tail;
      assert AfterName(roots, x)[0] == FILES[0];
    } else {
      assert roots[1] == rest[0] && rest[0] != [] && rest[0][0] >= F;
      assert RootsPart(rest) == (rest[0] + [0]) + RootsPart(rest[1..]);
      assert AfterName(roots, x)[0] == rest[0][0];
    }
  }

  // No root named "files" can be taken for the marker in front of `y`.
  ghost predicate Unmistaken(roots: seq<seq<Byte>>, x: seq<Byte>, y: seq<Byte>) {
    forall i :: 0 <= i < |roots| && roots[i] == FILES ==> AfterName(roots[i..], x) != y
  }

  lemma UnmistakenTail(roots: seq<seq<Byte>>, x: seq<Byte>, y: seq<Byte>)
    requires roots != [] && Unmistaken(roots, x, y)
    ensures Unmistaken(roots[1..], x, y)
  {
    forall i | 0 <= i < |roots[1..]| && roots[1..][i] == FILES ensures AfterName(roots[1..][i..], x) != y {
      assert roots[1..][i..] == roots[i + 1..] && roots[i + 1] == FILES;
    }
  }

  lemma {:induction false} RootsUnique(a: seq<seq<Byte>>, x: seq<Byte>, b: seq<seq<Byte>>, y: seq<Byte>)
    requires (forall r :: r in a ==> Terminated(r)) && (forall r :: r in b ==> Terminated(r))
    requires Unmistaken(a, x, y) && Unmistaken(b, y, x)
    requires RootsPart(a) + ((FILES + [0]) + x) == RootsPart(b) + ((FILES + [0]) + y)
    ensures a == b && x == y
    decreases |a| + |b|
  {
    FirstName(a, x);
    FirstName(b, y);
    NameApart(HeadName(a), AfterName(a, x), HeadName(b), AfterName(b, y));
    assert a[0..] == a && b[0..] == b;
    if a != [] && b != [] {
      UnmistakenTail(a, x, y);
      UnmistakenTail(b, y, x);
      RootsUnique(a[1..], x, b[1..], y);
      assert a == [a[0]] + a[1..] && b == [b[0]] + b[1..];
    }
  }

  lemma LateIsUnmistaken(roots: seq<seq<Byte>>, x: seq<Byte>, y: seq<Byte>)
    requires LateBehindFiles(roots) && StartsEarly(y)
    ensures Unmistaken(roots, x, y)
  {
    forall i | 0 <= i < |roots| && roots[i] == FILES ensures AfterName(roots[i..], x) != y {
      LateTail(roots, i);
      NotEarly(roots[i..], x);
    }
  }

  lemma LateTail(roots: seq<seq<Byte>>, k: nat)
    requires k <= |roots| && LateBehindFiles(roots)
    ensures LateBehindFiles(roots[k..])
  {
    var rest := roots[k..];
    forall i, j | 0 <= i < j < |rest| && rest[i] == FILES ensures rest[j] != [] && rest[j][0] >= F {
      assert roots[i + k] == FILES && roots[j + k] == rest[j];
    }
  }

  // ----- The trees that are hashed -----

  predicate BytesLe(a: seq<Byte>, b: seq<Byte>) {
    a == [] || (b != [] && (a[0] < b[0] || (a[0] == b[0] && BytesLe(a[1..], b[1..]))))
  }

  ghost predicate Sorted(names: seq<seq<Byte>>) {
    forall i, j :: 0 <= i < j < |names| ==> BytesLe(names[i], names[j])
  }

  // What `identity_domain` returns: sorted non-empty names, "driver/Cargo.lock" always among them.
  ghost predicate IsDomain(files: seq<File>) {
    && (forall i, j :: 0 <= i < j < |files| ==> BytesLe(files[i].name, files[j].name))
    && (forall f :: f in files ==> f.name != [] && Terminated(f.name) && |f.data| < WORD_LIMIT)
    && exists i :: 0 <= i < |files| && files[i].name == LOCK
  }

  // What is hashed: sorted roots given with the platform's separator, and a domain.
  ghost predicate Hashed(roots: seq<seq<Byte>>, separator: Byte, files: seq<File>) {
    && Sorted(roots) && (forall r :: r in roots ==> Terminated(r)) && separator in {SLASH, BACKSLASH}
    && IsDomain(files)
  }

  lemma DomainStartsEarly(files: seq<File>)
    requires IsDomain(files)
    ensures StartsEarly(FilesPart(files))
  {
    var i :| 0 <= i < |files| && files[i].name == LOCK;
    assert files[0] in files;
    assert i > 0 ==> BytesLe(files[0].name, files[i].name);
    assert FilesPart(files) == FilePart(files[0]) + FilesPart(files[1..]);
    assert FilesPart(files)[0] == files[0].name[0];
  }

  lemma SlashedFiles(name: seq<Byte>, separator: Byte)
    requires separator in {SLASH, BACKSLASH} && Slashed(name, separator) == FILES
    ensures name == FILES
  {
    forall i | 0 <= i < |name| ensures name[i] == FILES[i] { assert Slashed(name, separator)[i] == FILES[i]; }
  }

  lemma SortedIsLate(roots: seq<seq<Byte>>, separator: Byte)
    requires Sorted(roots) && separator in {SLASH, BACKSLASH}
    ensures LateBehindFiles(SlashedAll(roots, separator))
  {
    var slashed := SlashedAll(roots, separator);
    forall i, j | 0 <= i < j < |slashed| && slashed[i] == FILES ensures slashed[j] != [] && slashed[j][0] >= F {
      SlashedFiles(roots[i], separator);
      assert BytesLe(roots[i], roots[j]) && slashed[j] == Slashed(roots[j], separator);
    }
  }

  lemma SlashedTerminated(roots: seq<seq<Byte>>, separator: Byte)
    requires forall r :: r in roots ==> Terminated(r)
    ensures forall r :: r in SlashedAll(roots, separator) ==> Terminated(r)
  {
    var slashed := SlashedAll(roots, separator);
    forall r | r in slashed ensures Terminated(r) {
      var i :| 0 <= i < |slashed| && slashed[i] == r;
      assert roots[i] in roots;
      forall k | 0 <= k < |r| ensures r[k] != 0 { assert roots[i][k] in roots[i]; }
    }
  }

  // Equal streams mean equal roots, file names and file bytes, whatever the roots are called and on whichever
  // platforms the two were made.
  lemma IdentityUnique(roots: seq<seq<Byte>>, separator: Byte, files: seq<File>,
                       roots': seq<seq<Byte>>, separator': Byte, files': seq<File>)
    requires Hashed(roots, separator, files) && Hashed(roots', separator', files')
    requires Stream(Tree(SlashedAll(roots, separator), files)) == Stream(Tree(SlashedAll(roots', separator'), files'))
    ensures SlashedAll(roots, separator) == SlashedAll(roots', separator') && files == files'
  {
    var a, b := SlashedAll(roots, separator), SlashedAll(roots', separator');
    Joined(HEADER + [0], RootsPart(a) + ((FILES + [0]) + FilesPart(files)),
           HEADER + [0], RootsPart(b) + ((FILES + [0]) + FilesPart(files')));
    SortedIsLate(roots, separator);
    SortedIsLate(roots', separator');
    SlashedTerminated(roots, separator);
    SlashedTerminated(roots', separator');
    DomainStartsEarly(files);
    DomainStartsEarly(files');
    LateIsUnmistaken(a, FilesPart(files), FilesPart(files'));
    LateIsUnmistaken(b, FilesPart(files'), FilesPart(files));
    RootsUnique(a, FilesPart(files), b, FilesPart(files'));
    FilesUnique(files, files');
  }

  // ----- The same tree on two platforms -----

  function AsText(name: seq<Byte>): string {
    seq(|name|, i requires 0 <= i < |name| => name[i] as char)
  }

  // The literals of the stream, as they are written.
  lemma LiteralsSpelled()
    ensures AsText(HEADER) == "source-roots" && AsText(FILES) == "files" && AsText(LOCK) == "driver/Cargo.lock"
    ensures AsText([SLASH]) == "/" && AsText([BACKSLASH]) == "\\"
  {
  }

  // `sorted` on the roots as they are given.
  function SortRoots(roots: seq<seq<Byte>>): seq<seq<Byte>> {
    SortBy(AsText, roots)
  }

  lemma {:induction false} TextOrder(a: seq<Byte>, b: seq<Byte>)
    ensures NameLe(AsText(a), AsText(b)) <==> BytesLe(a, b)
  {
    if a != [] && b != [] {
      assert AsText(a)[1..] == AsText(a[1..]) && AsText(b)[1..] == AsText(b[1..]);
      TextOrder(a[1..], b[1..]);
    }
  }

  lemma TextApart(a: seq<Byte>, b: seq<Byte>)
    requires AsText(a) == AsText(b)
    ensures a == b
  {
    assert |a| == |AsText(a)| == |AsText(b)| == |b|;
    forall i | 0 <= i < |a| ensures a[i] == b[i] { assert AsText(a)[i] == AsText(b)[i]; }
  }

  lemma SortedIffSortedBy(roots: seq<seq<Byte>>)
    ensures Sorted(roots) <==> SortedBy(AsText, roots)
  {
    forall i, j | 0 <= i < j < |roots|
      ensures NameLe(AsText(roots[i]), AsText(roots[j])) <==> BytesLe(roots[i], roots[j])
    {
      TextOrder(roots[i], roots[j]);
    }
  }

  lemma RootsSorted(roots: seq<seq<Byte>>)
    ensures Sorted(SortRoots(roots)) && multiset(SortRoots(roots)) == multiset(roots)
  {
    SortSorts(AsText, roots);
    SortedIffSortedBy(SortRoots(roots));
  }

  // There is one way to sort.
  lemma SortedIsSort(roots: seq<seq<Byte>>, given: seq<seq<Byte>>)
    requires Sorted(roots) && multiset(roots) == multiset(given)
    ensures roots == SortRoots(given)
  {
    RootsSorted(given);
    SortedIffSortedBy(roots);
    SortedIffSortedBy(SortRoots(given));
    forall a, b | a in roots && b in roots && AsText(a) == AsText(b) ensures a == b { TextApart(a, b); }
    SortedUnique(AsText, roots, SortRoots(given));
  }

  // What `source_identity` feeds to the digest for roots in any order.
  function Identity(roots: seq<seq<Byte>>, separator: Byte, files: seq<File>): seq<Byte> {
    Stream(Tree(SlashedAll(SortRoots(roots), separator), files))
  }

  method FeedIdentity(roots: seq<seq<Byte>>, separator: Byte, files: seq<File>) returns (fed: seq<Byte>)
    ensures fed == Identity(roots, separator, files)
  {
    fed := Feed(SortRoots(roots), separator, files);
  }

  // The order in which roots are given does not matter.
  lemma RootOrderIrrelevant(roots: seq<seq<Byte>>, others: seq<seq<Byte>>, separator: Byte, files: seq<File>)
    requires multiset(roots) == multiset(others)
    ensures Identity(roots, separator, files) == Identity(others, separator, files)
  {
    RootsSorted(roots);
    SortedIsSort(SortRoots(roots), others);
  }

  // A fed root keeps every byte but the separators, and has none of those left.
  lemma SlashedBytes(name: seq<Byte>, separator: Byte, k: nat)
    requires k < |name|
    ensures |Slashed(name, separator)| == |name|
    ensures Slashed(name, separator)[k] == 47 <==> name[k] == 47 || name[k] == separator
    ensures Slashed(name, separator)[k] == name[k] || name[k] == separator
    ensures separator != 47 ==> separator !in Slashed(name, separator)
  {
  }

  // The same names as they are spelled where the separator is a backslash.
  function Backslashed(name: seq<Byte>): seq<Byte> {
    seq(|name|, i requires 0 <= i < |name| => if name[i] == 47 then 92 else name[i])
  }

  function BackslashedAll(names: seq<seq<Byte>>): seq<seq<Byte>> {
    Map(Backslashed, names)
  }

  ghost predicate Portable(names: seq<seq<Byte>>) {
    forall n :: n in names ==> 92 !in n && Terminated(n)
  }

  lemma SpelledBack(names: seq<seq<Byte>>)
    requires Portable(names)
    ensures SlashedAll(BackslashedAll(names), BACKSLASH) == names && SlashedAll(names, SLASH) == names
  {
    forall i | 0 <= i < |names|
      ensures Slashed(Backslashed(names[i]), BACKSLASH) == names[i] && Slashed(names[i], SLASH) == names[i]
    {
      assert names[i] in names;
    }
  }

  lemma BackslashedApart(a: seq<seq<Byte>>, b: seq<seq<Byte>>)
    requires |a| == |b| && Portable(b) && SlashedAll(a, BACKSLASH) == b && forall n :: n in a ==> 47 !in n
    ensures a == BackslashedAll(b)
  {
    forall i | 0 <= i < |a| ensures a[i] == Backslashed(b[i]) {
      assert a[i] in a && b[i] == SlashedAll(a, BACKSLASH)[i];
      forall k | 0 <= k < |a[i]| ensures a[i][k] == Backslashed(b[i])[k] { assert a[i][k] in a[i]; }
    }
  }

  // The roots are sorted as they are spelled, and a backslash sorts behind what a slash sorts before. The two platforms
  // agree on the identity of a tree exactly when the sorted roots are still sorted when spelled with backslashes.
  lemma PlatformsAgreeIff(roots: seq<seq<Byte>>, files: seq<File>)
    requires Portable(roots) && IsDomain(files)
    ensures Identity(BackslashedAll(roots), BACKSLASH, files) == Identity(roots, SLASH, files)
       <==> Sorted(BackslashedAll(SortRoots(roots)))
  {
    var unix, windows := SortRoots(roots), SortRoots(BackslashedAll(roots));
    RootsSorted(roots);
    RootsSorted(BackslashedAll(roots));
    PortableSorted(roots, unix);
    SpelledBack(unix);
    MapMultiset(Backslashed, roots, unix);
    if Sorted(BackslashedAll(unix)) {
      SortedIsSort(BackslashedAll(unix), BackslashedAll(roots));
    }
    WindowsHashed(roots, windows, files);
    if Identity(BackslashedAll(roots), BACKSLASH, files) == Identity(roots, SLASH, files) {
      IdentityUnique(windows, BACKSLASH, files, unix, SLASH, files);
      BackslashedApart(windows, unix);
    }
  }

  lemma PortableSorted(roots: seq<seq<Byte>>, sorted: seq<seq<Byte>>)
    requires Portable(roots) && multiset(sorted) == multiset(roots)
    ensures Portable(sorted)
  {
    forall n | n in sorted ensures 92 !in n && Terminated(n) { assert n in multiset(sorted) && n in roots; }
  }

  lemma BackslashedClean(roots: seq<seq<Byte>>, n: seq<Byte>)
    requires Portable(roots) && n in BackslashedAll(roots)
    ensures 47 !in n && Terminated(n)
  {
    var i :| 0 <= i < |roots| && BackslashedAll(roots)[i] == n;
    assert roots[i] in roots && n == Backslashed(roots[i]);
    forall k | 0 <= k < |n| ensures n[k] != 47 && n[k] != 0 { assert roots[i][k] in roots[i]; }
  }

  lemma WindowsHashed(roots: seq<seq<Byte>>, windows: seq<seq<Byte>>, files: seq<File>)
    requires Portable(roots) && IsDomain(files) && Sorted(windows)
    requires multiset(windows) == multiset(BackslashedAll(roots))
    ensures Hashed(windows, BACKSLASH, files) && forall n :: n in windows ==> 47 !in n
  {
    forall n | n in windows ensures 47 !in n && Terminated(n) {
      assert n in multiset(windows);
      BackslashedClean(roots, n);
    }
  }

  // The roots "a/b" and "a0" make two identities of one tree.
  lemma PlatformsDisagree(files: seq<File>) returns (roots: seq<seq<Byte>>)
    requires IsDomain(files)
    ensures roots == [[97, 47, 98], [97, 48]]
    ensures Identity(BackslashedAll(roots), BACKSLASH, files) != Identity(roots, SLASH, files)
  {
    roots := Swapped();
    PlatformsAgreeIff(roots, files);
  }

  lemma Swapped() returns (roots: seq<seq<Byte>>)
    ensures roots == [[97, 47, 98], [97, 48]] && Portable(roots) && !Sorted(BackslashedAll(SortRoots(roots)))
  {
    roots := [[97, 47, 98], [97, 48]];
    TwoOrders(roots[0], roots[1]);
    assert Sorted(roots);
    SortedIsSort(roots, roots);
    assert BackslashedAll(roots)[0] == Backslashed(roots[0]) && BackslashedAll(roots)[1] == Backslashed(roots[1]);
  }

  lemma TwoOrders(a: seq<Byte>, b: seq<Byte>)
    requires a == [97, 47, 98] && b == [97, 48]
    ensures BytesLe(a, b) && !BytesLe(Backslashed(a), Backslashed(b))
  {
    assert a[1..] == [47, 98] && b[1..] == [48];
    assert Backslashed(a)[1..] == [92, 98] && Backslashed(b)[1..] == [48];
  }

  // ----- A remark on the framing alone -----

  // Over arbitrary trees, which are never hashed, it is the order of names and not the framing that tells a
  // root named "files" from the marker.
  ghost predicate Uses(t: Tree, allowed: iset<seq<Byte>>) {
    && (forall r :: r in t.roots ==> Terminated(r) && r in allowed)
    && (forall f :: f in t.files ==> Terminated(f.name) && |f.data| < WORD_LIMIT)
  }

  ghost predicate Injective(allowed: iset<seq<Byte>>) {
    forall s, t :: Uses(s, allowed) && Uses(t, allowed) && Stream(s) == Stream(t) ==> s == t
  }

  lemma InjectiveIffNoFilesRoot(allowed: iset<seq<Byte>>)
    ensures Injective(allowed) <==> FILES !in allowed
  {
    if FILES in allowed {
      var s, t := FramingAloneCollides();
      assert Uses(s, allowed) && Uses(t, allowed) && s != t;
    } else {
      forall s, t | Uses(s, allowed) && Uses(t, allowed) && Stream(s) == Stream(t) ensures s == t {
        Joined(HEADER + [0], RootsPart(s.roots) + ((FILES + [0]) + FilesPart(s.files)),
               HEADER + [0], RootsPart(t.roots) + ((FILES + [0]) + FilesPart(t.files)));
        RootsUnique(s.roots, FilesPart(s.files), t.roots, FilesPart(t.files));
        FilesUnique(s.files, t.files);
      }
    }
  }

  // Two small files behind such a root read as one file without roots.
  lemma FramingAloneCollides() returns (s: Tree, t: Tree)
    ensures s.roots == [FILES] && t.roots == [] && |s.files| == 2 && |t.files| == 1 && Stream(s) == Stream(t)
    ensures Uses(s, iset{FILES}) && Uses(t, iset{})
  {
    var first, second := File([97], []), File([98], seq(85, i => 0));
    var whole := File(FILES, [0, 0] + FilePart(second));
    s, t := Tree([FILES], [first, second]), Tree([], [whole]);
    ReadsAsOne(first, second, whole);
    RootAsMarker(s.files);
  }

  lemma ReadsAsOne(first: File, second: File, whole: File)
    requires first == File([97], []) && |FilePart(second)| == 95 && whole == File(FILES, [0, 0] + FilePart(second))
    ensures FilesPart([whole]) == (FILES + [0]) + FilesPart([first, second])
  {
    TwoFiles(first, second);
    OneFile(whole);
    FirstIsLength(first);
    Regroup(Little(97, 8), [0, 0], FilePart(second));
  }

  lemma RootAsMarker(files: seq<File>)
    ensures RootsPart([FILES]) == FILES + [0] && RootsPart([]) == []
    ensures var marked := (FILES + [0]) + FilesPart(files);
            [] + ((FILES + [0]) + marked) == (FILES + [0]) + marked
  {
    assert [FILES][1..] == [] && RootsPart([FILES]) == (FILES + [0]) + RootsPart([]);
  }

  lemma OneFile(f: File)
    ensures FilesPart([f]) == FilePart(f)
  {
    assert [f][1..] == [] && FilePart(f) + [] == FilePart(f);
  }

  lemma TwoFiles(f: File, g: File)
    ensures FilesPart([f, g]) == FilePart(f) + FilePart(g)
  {
    assert [f, g][1..] == [g];
    OneFile(g);
  }

  lemma FirstIsLength(f: File)
    requires f == File([97], [])
    ensures FilePart(f) == Little(97, 8) + [0, 0]
  {
    SmallLengths();
    assert FilePart(f) == [97, 0, 0, 0, 0, 0, 0, 0, 0, 0];
  }

  lemma SmallLengths()
    ensures Little(0, 8) == [0, 0, 0, 0, 0, 0, 0, 0] && Little(97, 8) == [97, 0, 0, 0, 0, 0, 0, 0]
  {
    assert Little(0, 2) == [0, 0];
    assert Little(0, 4) == [0, 0, 0, 0];
    assert Little(0, 6) == [0, 0, 0, 0, 0, 0];
    assert Little(0, 7) == [0, 0, 0, 0, 0, 0, 0];
    assert Little(97, 8) == [97] + Little(0, 7);
  }
}
