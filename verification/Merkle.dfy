/** The Merkle root over the transaction hashes of one block (internal/domain/merkle/merkle.go).

    The level-by-level loop is proved against a top-down recursive tree. The tree is then shown to
    ignore the order of its input and to bind it: equal roots mean equal multisets of hashes, or two
    of the byte strings hashed on the way collide. */
module Merkle {
  import opened Encoding

  // ---------------------------------------------------------------- sort.Strings

  predicate LexLeq(a: Bytes, b: Bytes) {
    a == [] || (b != [] && (a[0] < b[0] || (a[0] == b[0] && LexLeq(a[1..], b[1..]))))
  }

  lemma {:induction false} LexTotal(a: Bytes, b: Bytes)
    ensures LexLeq(a, b) || LexLeq(b, a)
  {
    if a != [] && b != [] && a[0] == b[0] {
      LexTotal(a[1..], b[1..]);
    }
  }

  lemma {:induction false} LexAntisymmetric(a: Bytes, b: Bytes)
    requires LexLeq(a, b) && LexLeq(b, a)
    ensures a == b
  {
    if a != [] {
      LexAntisymmetric(a[1..], b[1..]);
      assert a == [a[0]] + a[1..] && b == [b[0]] + b[1..];
    }
  }

  lemma {:induction false} LexTransitive(a: Bytes, b: Bytes, c: Bytes)
    requires LexLeq(a, b) && LexLeq(b, c)
    ensures LexLeq(a, c)
  {
    if a != [] && a[0] == b[0] == c[0] {
      LexTransitive(a[1..], b[1..], c[1..]);
    }
  }

  ghost predicate Sorted(s: seq<Bytes>) {
    forall i, j :: 0 <= i < j < |s| ==> LexLeq(s[i], s[j])
  }

  function Insert(x: Bytes, s: seq<Bytes>): (r: seq<Bytes>)
    ensures multiset(r) == multiset(s) + multiset{x}
  {
    if s == [] || LexLeq(x, s[0]) then [x] + s
    else
      assert s == [s[0]] + s[1..];
      [s[0]] + Insert(x, s[1..])
  }

  /** What sort.Strings leaves behind: the one ascending permutation of its argument. */
  function Sort(s: seq<Bytes>): (r: seq<Bytes>)
    ensures multiset(r) == multiset(s) && |r| == |s|
  {
    if s == [] then []
    else
      assert s == [s[0]] + s[1..];
      var r := Insert(s[0], Sort(s[1..]));
      assert |multiset(r)| == |r| && |multiset(s)| == |s|;
      r
  }

  lemma {:induction false} InsertSorted(x: Bytes, s: seq<Bytes>)
    requires Sorted(s)
    ensures Sorted(Insert(x, s))
  {
    if s == [] {
    } else if LexLeq(x, s[0]) {
      forall j | 0 <= j < |s| ensures LexLeq(x, s[j]) {
        if j > 0 { LexTransitive(x, s[0], s[j]); }
      }
    } else {
      LexTotal(x, s[0]);
      InsertSorted(x, s[1..]);
      var rest := Insert(x, s[1..]);
      forall j | 0 <= j < |rest| ensures LexLeq(s[0], rest[j]) {
        assert rest[j] in multiset(rest);
        assert rest[j] == x || rest[j] in s[1..];
      }
    }
  }

  lemma {:induction false} SortSorted(s: seq<Bytes>)
    ensures Sorted(Sort(s))
  {
    if s != [] {
      SortSorted(s[1..]);
      InsertSorted(s[0], Sort(s[1..]));
    }
  }

  ghost predicate DecidedAt(a: Bytes, b: Bytes, i: int) {
    0 <= i < |a| && i < |b| && a[..i] == b[..i] && a[i] < b[i]
  }

  lemma LexTail(a: Bytes, b: Bytes)
    requires a != [] && b != [] && a[0] == b[0]
    ensures a <= b <==> a[1..] <= b[1..]
    ensures (exists i :: DecidedAt(a, b, i)) <==> exists i :: DecidedAt(a[1..], b[1..], i)
  {
    assert a == [a[0]] + a[1..] && b == [b[0]] + b[1..];
    if i :| DecidedAt(a, b, i) {
      assert a[1..][..i - 1] == a[..i][1..] && b[1..][..i - 1] == b[..i][1..];
      assert DecidedAt(a[1..], b[1..], i - 1);
    }
    if i :| DecidedAt(a[1..], b[1..], i) {
      assert a[..i + 1] == [a[0]] + a[1..][..i] && b[..i + 1] == [b[0]] + b[1..][..i];
      assert DecidedAt(a, b, i + 1);
    }
  }

  /** Byte order: a prefix comes first, and otherwise the first byte that differs decides. */
  lemma {:induction false} LexMeans(a: Bytes, b: Bytes)
    ensures LexLeq(a, b) <==>
      a <= b || exists i :: DecidedAt(a, b, i)
  {
    if a != [] && b != [] {
      var s, t := a[1..], b[1..];
      LexMeans(s, t);
      if a[0] < b[0] {
        assert DecidedAt(a, b, 0);
      } else if a[0] == b[0] {
        LexTail(a, b);
      } else {
        assert forall i :: DecidedAt(a, b, i) ==> i > 0 ==> a[..i][0] == b[..i][0];
      }
    }
  }

  lemma {:induction false} LexReflexive(a: Bytes)
    ensures LexLeq(a, a)
  {
    if a != [] { LexReflexive(a[1..]); }
  }

  lemma SortedHead(a: seq<Bytes>, b: seq<Bytes>)
    requires Sorted(a) && Sorted(b) && a != [] && b != []
    requires a[0] in b && b[0] in a
    ensures a[0] == b[0]
  {
    var i :| 0 <= i < |b| && b[i] == a[0];
    var j :| 0 <= j < |a| && a[j] == b[0];
    LexReflexive(a[0]);
    LexReflexive(b[0]);
    LexAntisymmetric(a[0], b[0]);
  }

  lemma HeadAndTail<T>(s: seq<T>)
    requires s != []
    ensures s == [s[0]] + s[1..] && multiset(s[1..]) == multiset(s) - multiset{s[0]}
  {}

  lemma {:induction false} SortedUnique(a: seq<Bytes>, b: seq<Bytes>)
    requires Sorted(a) && Sorted(b) && multiset(a) == multiset(b)
    ensures a == b
  {
    if a == [] {
      assert |multiset(b)| == |b|;
    } else {
      assert |multiset(b)| == |b| && |multiset(a)| == |a|;
      assert a[0] in multiset(b) && b[0] in multiset(a);
      SortedHead(a, b);
      HeadAndTail(a);
      HeadAndTail(b);
      SortedUnique(a[1..], b[1..]);
    }
  }

  // ---------------------------------------------------------------- the tree, top down

  /** append(left, right...): the 64 bytes hashed for an inner node. */
  function Cat(left: Digest, right: Digest): (r: Bytes)
    ensures |r| == 64
  {
    var bytes: Bytes := left;
    bytes + right
  }

  lemma CatInjective(a: Digest, b: Digest, c: Digest, d: Digest)
    requires Cat(a, b) == Cat(c, d)
    ensures a == c && b == d
  {
    assert a == Cat(a, b)[..32] && b == Cat(a, b)[32..];
    assert c == Cat(c, d)[..32] && d == Cat(c, d)[32..];
  }

  function Pow2(k: nat): (r: nat)
    ensures r >= 1
    ensures k > 0 ==> r % 2 == 0
  {
    if k == 0 then 1 else 2 * Pow2(k - 1)
  }

  /** Height of the smallest perfect binary tree with room for n leaves. */
  function Depth(n: nat): (k: nat)
    ensures n <= Pow2(k)
    ensures k > 0 ==> n > Pow2(k - 1)
  {
    if n <= 1 then 0 else 1 + Depth((n + 1) / 2)
  }

  /** The leaves of the left subtree: the first 2^(k-1) entries. */
  function Lower<T>(k: nat, row: seq<T>): (r: seq<T>)
    requires 1 <= k && 1 <= |row| <= Pow2(k)
    ensures 1 <= |r| <= Pow2(k - 1) && r[0] == row[0]
  {
    if |row| <= Pow2(k - 1) then row else row[..Pow2(k - 1)]
  }

  /** The leaves of the right subtree: the remaining entries, or the left ones again if none remain. */
  function Upper<T>(k: nat, row: seq<T>): (r: seq<T>)
    requires 1 <= k && 1 <= |row| <= Pow2(k)
    ensures 1 <= |r| <= Pow2(k - 1)
  {
    if |row| <= Pow2(k - 1) then row else row[Pow2(k - 1)..]
  }

  /** A tree over digests, or over the entries that the leaf digests are made from. */
  datatype Tree<T> = Leaf(value: T) | Node(left: Tree<T>, right: Tree<T>)

  /** Every leaf is k levels below the top. */
  predicate Perfect<T>(t: Tree<T>, k: nat) {
    match t
    case Leaf(_) => k == 0
    case Node(l, r) => k > 0 && Perfect(l, k - 1) && Perfect(r, k - 1)
  }

  /** The tree of height k over a row of leaves. */
  function Build<T>(k: nat, row: seq<T>): (t: Tree<T>)
    requires 1 <= |row| <= Pow2(k)
    ensures Perfect(t, k)
  {
    if k == 0 then Leaf(row[0]) else Node(Build(k - 1, Lower(k, row)), Build(k - 1, Upper(k, row)))
  }

  /** The digest at the top of a tree. */
  function Fold(sha: HashFn, t: Tree<Digest>): Digest {
    match t
    case Leaf(d) => d
    case Node(l, r) => sha(Cat(Fold(sha, l), Fold(sha, r)))
  }

  function RowRoot(sha: HashFn, row: seq<Digest>): Digest
    requires row != []
  {
    Fold(sha, Build(Depth(|row|), row))
  }

  function Leaves(sha: HashFn, hashes: seq<Bytes>): (r: seq<Digest>)
    ensures |r| == |hashes|
    ensures forall i :: 0 <= i < |r| ==> r[i] == sha(hashes[i])
  {
    seq(|hashes|, i requires 0 <= i < |hashes| => sha(hashes[i]))
  }

  /** The root of one block's transaction hashes, as a hex string. */
  function Root(sha: HashFn, hashes: seq<Bytes>): (r: Bytes)
    ensures |r| == 64
  {
    if hashes == [] then Hex(sha([]))
    else Hex(RowRoot(sha, Leaves(sha, Sort(hashes))))
  }

  // ---------------------------------------------------------------- the loop computes the tree

  function NextAt(sha: HashFn, row: seq<Digest>, i: nat): Digest
    requires 2 * i < |row|
  {
    sha(Cat(row[2 * i], if 2 * i + 1 < |row| then row[2 * i + 1] else row[2 * i]))
  }

  /** One round of the reduction: neighbours are hashed together, a last odd entry with itself. */
  function Next(sha: HashFn, row: seq<Digest>): (r: seq<Digest>)
    requires row != []
    ensures |r| == (|row| + 1) / 2
    ensures forall i :: 0 <= i < |r| ==> r[i] == NextAt(sha, row, i)
  {
    seq((|row| + 1) / 2, i requires 0 <= i < (|row| + 1) / 2 => NextAt(sha, row, i))
  }

  lemma NextOfLower(sha: HashFn, row: seq<Digest>, half: nat)
    requires half % 2 == 0 && 0 < half < |row|
    ensures Next(sha, row)[..half / 2] == Next(sha, row[..half])
  {}

  lemma NextOfUpper(sha: HashFn, row: seq<Digest>, half: nat)
    requires half % 2 == 0 && 0 < half < |row|
    ensures Next(sha, row)[half / 2..] == Next(sha, row[half..])
  {}

  lemma {:induction false} NextOfSubrows(sha: HashFn, k: nat, row: seq<Digest>)
    requires 2 <= k && 1 <= |row| <= Pow2(k)
    ensures Next(sha, Lower(k, row)) == Lower(k - 1, Next(sha, row))
    ensures Next(sha, Upper(k, row)) == Upper(k - 1, Next(sha, row))
  {
    if |row| > Pow2(k - 1) {
      NextOfLower(sha, row, Pow2(k - 1));
      NextOfUpper(sha, row, Pow2(k - 1));
    }
  }

  lemma {:induction false} LastRound(sha: HashFn, row: seq<Digest>)
    requires 1 <= |row| <= Pow2(1)
    ensures Fold(sha, Build(1, row)) == Fold(sha, Build(0, Next(sha, row)))
  {}

  lemma {:induction false} TreeOfNext(sha: HashFn, k: nat, row: seq<Digest>)
    requires 1 <= k && 1 <= |row| <= Pow2(k)
    ensures Fold(sha, Build(k, row)) == Fold(sha, Build(k - 1, Next(sha, row)))
  {
    if k == 1 {
      LastRound(sha, row);
    } else {
      TreeOfNext(sha, k - 1, Lower(k, row));
      TreeOfNext(sha, k - 1, Upper(k, row));
      NextOfSubrows(sha, k, row);
    }
  }

  lemma RoundKeepsRoot(sha: HashFn, row: seq<Digest>)
    requires |row| > 1
    ensures RowRoot(sha, Next(sha, row)) == RowRoot(sha, row)
  {
    assert Depth(|row|) == 1 + Depth(|Next(sha, row)|);
    TreeOfNext(sha, Depth(|row|), row);
  }

  method HashLeaves(sha: HashFn, sorted: seq<Bytes>) returns (level: seq<Digest>)
    ensures level == Leaves(sha, sorted)
  {
    var slots := new Digest[|sorted|];
    for i := 0 to |sorted|
      invariant forall j :: 0 <= j < i ==> slots[j] == sha(sorted[j])
    {
      slots[i] := sha(sorted[i]);
    }
    level := slots[..];
  }

  /** A round of the loop, on the row already padded to even length. */
  method HashPairs(sha: HashFn, level: seq<Digest>) returns (next: seq<Digest>)
    requires |level| % 2 == 0 && level != []
    ensures next == Next(sha, level)
  {
    var slots := new Digest[|level| / 2];
    var i := 0;
    while i < |level|
      invariant 0 <= i <= |level| && i % 2 == 0
      invariant forall j :: 0 <= j < i / 2 ==> slots[j] == NextAt(sha, level, j)
    {
      var combined := Cat(level[i], level[i + 1]);
      slots[i / 2] := sha(combined);
      i := i + 2;
    }
    next := slots[..];
  }

  lemma NextIgnoresPadding(sha: HashFn, row: seq<Digest>)
    requires |row| % 2 == 1
    ensures Next(sha, row + [row[|row| - 1]]) == Next(sha, row)
  {}

  lemma RootOfOne(sha: HashFn, row: seq<Digest>)
    requires |row| == 1
    ensures RowRoot(sha, row) == row[0]
  {}

  /** One round in plain terms: each digest of the next row is the hash of two neighbours, the left one first,
      or of a last odd digest twice. */
  lemma NextInBytes(sha: HashFn, row: seq<Digest>, i: nat)
    requires row != [] && 2 * i < |row|
    ensures
      var left: Bytes, right: Bytes := row[2 * i], row[if 2 * i + 1 < |row| then 2 * i + 1 else 2 * i];
      Next(sha, row)[i] == sha(left + right)
  {}

  method BuildMerkleRoot(sha: HashFn, txHashes: seq<Bytes>) returns (root: Bytes)
    ensures root == Root(sha, txHashes)
  {
    if |txHashes| == 0 {
      return Hex(sha([]));
    }
    var sorted := Sort(txHashes);

    var level := HashLeaves(sha, sorted);
    ghost var top := RowRoot(sha, level);
    while |level| > 1
      invariant |level| >= 1
      invariant RowRoot(sha, level) == top
      decreases |level|
    {
      ghost var next := Next(sha, level);
      RoundKeepsRoot(sha, level);
      if |level| % 2 != 0 {
        NextIgnoresPadding(sha, level);
        level := level + [level[|level| - 1]];
      }
      level := HashPairs(sha, level);
      assert level == next;
    }
    RootOfOne(sha, level);
    root := Hex(level[0]);
  }

  // ---------------------------------------------------------------- the order does not matter

  lemma RootIgnoresOrder(sha: HashFn, a: seq<Bytes>, b: seq<Bytes>)
    requires multiset(a) == multiset(b)
    ensures Root(sha, a) == Root(sha, b)
  {
    assert |multiset(a)| == |a| && |multiset(b)| == |b|;
    SortSorted(a);
    SortSorted(b);
    SortedUnique(Sort(a), Sort(b));
  }

  // ---------------------------------------------------------------- the tree of entries

  /** The entries as they are hashed: no transactions hash like one empty entry. */
  function Norm(hashes: seq<Bytes>): (r: seq<Bytes>)
    ensures r != []
  {
    if hashes == [] then [[]] else hashes
  }

  /** The padded tree over the sorted entries of a block. */
  function EntryTree(hashes: seq<Bytes>): Tree<Bytes> {
    Build(Depth(|Sort(Norm(hashes))|), Sort(Norm(hashes)))
  }

  /** The string that is hashed at the top of the tree. */
  function Preimage(sha: HashFn, t: Tree<Bytes>): Bytes {
    match t
    case Leaf(entry) => entry
    case Node(l, r) => Cat(sha(Preimage(sha, l)), sha(Preimage(sha, r)))
  }

  lemma {:induction false} LeavesOfSubrows(sha: HashFn, k: nat, row: seq<Bytes>)
    requires 1 <= k && 1 <= |row| <= Pow2(k)
    ensures Lower(k, Leaves(sha, row)) == Leaves(sha, Lower(k, row))
    ensures Upper(k, Leaves(sha, row)) == Leaves(sha, Upper(k, row))
  {}

  lemma {:induction false} FoldOfLeaves(sha: HashFn, k: nat, row: seq<Bytes>)
    requires 1 <= |row| <= Pow2(k)
    ensures Fold(sha, Build(k, Leaves(sha, row))) == sha(Preimage(sha, Build(k, row)))
  {
    if k > 0 {
      LeavesOfSubrows(sha, k, row);
      FoldOfLeaves(sha, k - 1, Lower(k, row));
      FoldOfLeaves(sha, k - 1, Upper(k, row));
    }
  }

  lemma SortOfOne(entry: Bytes)
    ensures Sort([entry]) == [entry]
  {
    assert multiset(Sort([entry])) == multiset{entry};
    assert |multiset(Sort([entry]))| == |Sort([entry])|;
    assert Sort([entry])[0] in multiset(Sort([entry]));
  }

  /** The root of a block is the digest on top of its entry tree, for the empty block too. */
  lemma {:induction false} RootOfTree(sha: HashFn, hashes: seq<Bytes>)
    ensures Root(sha, hashes) == Hex(sha(Preimage(sha, EntryTree(hashes))))
  {
    if hashes == [] {
      SortOfOne([]);
    } else {
      FoldOfLeaves(sha, Depth(|Sort(hashes)|), Sort(hashes));
    }
  }

  // ---------------------------------------------------------------- the root binds its input

  /** Everything that is hashed in a tree. */
  ghost function TreeInputs(sha: HashFn, t: Tree<Bytes>): set<Bytes> {
    match t
    case Leaf(entry) => {entry}
    case Node(l, r) => {Preimage(sha, t)} + TreeInputs(sha, l) + TreeInputs(sha, r)
  }

  /** Everything that is hashed while the root of `hashes` is computed. */
  ghost function RootInputs(sha: HashFn, hashes: seq<Bytes>): set<Bytes> {
    TreeInputs(sha, EntryTree(hashes))
  }

  /** The two trees hash the same strings from the top down to where one of them ends. */
  predicate Matches(sha: HashFn, t: Tree<Bytes>, u: Tree<Bytes>) {
    if t.Leaf? || u.Leaf? then Preimage(sha, t) == Preimage(sha, u)
    else Matches(sha, t.left, u.left) && Matches(sha, t.right, u.right)
  }

  lemma {:induction false} MatchesSameTop(sha: HashFn, t: Tree<Bytes>, u: Tree<Bytes>)
    requires Matches(sha, t, u)
    ensures Preimage(sha, t) == Preimage(sha, u)
  {
    if t.Node? && u.Node? {
      MatchesSameTop(sha, t.left, u.left);
      MatchesSameTop(sha, t.right, u.right);
    }
  }

  lemma {:induction false} SameTopMatches(sha: HashFn, t: Tree<Bytes>, u: Tree<Bytes>, inputs: set<Bytes>)
    requires TreeInputs(sha, t) <= inputs && TreeInputs(sha, u) <= inputs && !CollisionIn(sha, inputs)
    requires sha(Preimage(sha, t)) == sha(Preimage(sha, u))
    ensures Matches(sha, t, u)
  {
    assert Preimage(sha, t) in inputs && Preimage(sha, u) in inputs;
    if t.Node? && u.Node? {
      CatInjective(sha(Preimage(sha, t.left)), sha(Preimage(sha, t.right)),
                   sha(Preimage(sha, u.left)), sha(Preimage(sha, u.right)));
      SameTopMatches(sha, t.left, u.left, inputs);
      SameTopMatches(sha, t.right, u.right, inputs);
    }
  }

  /** The blocks' trees match. */
  predicate Agree(sha: HashFn, a: seq<Bytes>, b: seq<Bytes>) {
    Matches(sha, EntryTree(a), EntryTree(b))
  }

  /** Binding, for any two lists at all: their roots are equal exactly when their trees match, or two of the
      strings hashed for the two roots collide. */
  lemma {:induction false} RootBinding(sha: HashFn, a: seq<Bytes>, b: seq<Bytes>)
    ensures CollisionIn(sha, RootInputs(sha, a) + RootInputs(sha, b))
            || (Root(sha, a) == Root(sha, b) <==> Agree(sha, a, b))
  {
    var t, u := EntryTree(a), EntryTree(b);
    var inputs := RootInputs(sha, a) + RootInputs(sha, b);
    RootOfTree(sha, a);
    RootOfTree(sha, b);
    if Agree(sha, a, b) {
      MatchesSameTop(sha, t, u);
    } else if Root(sha, a) == Root(sha, b) && !CollisionIn(sha, inputs) {
      HexInjective(sha(Preimage(sha, t)), sha(Preimage(sha, u)));
      SameTopMatches(sha, t, u, inputs);
    }
  }

  // ---------------------------------------------------------------- what matching means for the lists

  /** The leaves from left to right. */
  function LeafRow<T>(t: Tree<T>): seq<T> {
    match t
    case Leaf(v) => [v]
    case Node(l, r) => LeafRow(l) + LeafRow(r)
  }

  /** The sorted entries as the rounds pad them to a power of two. */
  function Padded(hashes: seq<Bytes>): seq<Bytes> {
    LeafRow(EntryTree(hashes))
  }

  /** Matching trees of the same height are equal, whatever their entries. */
  lemma {:induction false} SameHeightMatch(sha: HashFn, k: nat, t: Tree<Bytes>, u: Tree<Bytes>)
    requires Perfect(t, k) && Perfect(u, k)
    ensures Matches(sha, t, u) <==> t == u
  {
    if k > 0 {
      SameHeightMatch(sha, k - 1, t.left, u.left);
      SameHeightMatch(sha, k - 1, t.right, u.right);
    }
  }

  /** A tree matches a higher one only if each of its entries is as long as the two digests hashed for an
      inner node. */
  lemma {:induction false} DifferentHeights(sha: HashFn, j: nat, t: Tree<Bytes>, k: nat, u: Tree<Bytes>)
    requires Perfect(t, j) && Perfect(u, k) && j < k && Matches(sha, t, u)
    ensures forall e :: e in LeafRow(t) ==> |e| == 64
  {
    if j > 0 {
      DifferentHeights(sha, j - 1, t.left, k - 1, u.left);
      DifferentHeights(sha, j - 1, t.right, k - 1, u.right);
    }
  }

  lemma {:induction false} LeafRowLength<T>(t: Tree<T>, k: nat)
    requires Perfect(t, k)
    ensures |LeafRow(t)| == Pow2(k)
  {
    if k > 0 {
      LeafRowLength(t.left, k - 1);
      LeafRowLength(t.right, k - 1);
    }
  }

  lemma {:induction false} LeafRowInjective<T>(t: Tree<T>, u: Tree<T>, k: nat)
    requires Perfect(t, k) && Perfect(u, k) && LeafRow(t) == LeafRow(u)
    ensures t == u
  {
    if k > 0 {
      LeafRowLength(t.left, k - 1);
      LeafRowLength(u.left, k - 1);
      assert LeafRow(t)[..Pow2(k - 1)] == LeafRow(t.left) && LeafRow(u)[..Pow2(k - 1)] == LeafRow(u.left);
      assert LeafRow(t)[Pow2(k - 1)..] == LeafRow(t.right) && LeafRow(u)[Pow2(k - 1)..] == LeafRow(u.right);
      LeafRowInjective(t.left, u.left, k - 1);
      LeafRowInjective(t.right, u.right, k - 1);
    }
  }

  lemma {:induction false} Pow2Grows(j: nat, k: nat)
    requires j < k
    ensures Pow2(j) < Pow2(k)
  {
    if j < k - 1 { Pow2Grows(j, k - 1); }
  }

  lemma {:induction false} RowInTree<T>(k: nat, row: seq<T>, i: nat)
    requires 1 <= |row| <= Pow2(k) && i < |row|
    ensures row[i] in LeafRow(Build(k, row))
  {
    if k > 0 {
      if i < |Lower(k, row)| {
        RowInTree(k - 1, Lower(k, row), i);
      } else {
        RowInTree(k - 1, Upper(k, row), i - Pow2(k - 1));
      }
    }
  }

  /** Not every entry is as long as two digests. */
  predicate SomePlain(hashes: seq<Bytes>) {
    hashes != [] ==> exists i :: 0 <= i < |hashes| && |hashes[i]| != 64
  }

  lemma {:induction false} PlainLeaf(hashes: seq<Bytes>)
    requires SomePlain(hashes)
    ensures exists e :: e in Padded(hashes) && |e| != 64
  {
    var entries := Norm(hashes);
    var i :| 0 <= i < |entries| && |entries[i]| != 64;
    assert entries[i] in multiset(Sort(entries));
    var j :| 0 <= j < |Sort(entries)| && Sort(entries)[j] == entries[i];
    RowInTree(Depth(|Sort(entries)|), Sort(entries), j);
  }

  lemma {:induction false} MatchesSymmetric(sha: HashFn, t: Tree<Bytes>, u: Tree<Bytes>)
    requires Matches(sha, t, u)
    ensures Matches(sha, u, t)
  {
    if t.Node? && u.Node? {
      MatchesSymmetric(sha, t.left, u.left);
      MatchesSymmetric(sha, t.right, u.right);
    }
  }

  /** Trees match exactly when the padded lists are equal, unless one list consists of 64-byte entries. */
  lemma {:induction false} AgreePadded(sha: HashFn, a: seq<Bytes>, b: seq<Bytes>)
    requires SomePlain(a) && SomePlain(b)
    ensures Agree(sha, a, b) <==> Padded(a) == Padded(b)
  {
    var t, u := EntryTree(a), EntryTree(b);
    var j, k := Depth(|Sort(Norm(a))|), Depth(|Sort(Norm(b))|);
    LeafRowLength(t, j);
    LeafRowLength(u, k);
    PlainLeaf(a);
    PlainLeaf(b);
    if j == k {
      SameHeightMatch(sha, k, t, u);
      if Padded(a) == Padded(b) { LeafRowInjective(t, u, k); }
    } else if j < k {
      Pow2Grows(j, k);
      if Matches(sha, t, u) { DifferentHeights(sha, j, t, k, u); }
    } else {
      Pow2Grows(k, j);
      if Matches(sha, t, u) {
        MatchesSymmetric(sha, t, u);
        DifferentHeights(sha, k, u, j, t);
      }
    }
  }

  /** The exact condition for lists with repeated and empty entries: equal roots if and only if the padded
      lists are equal, or a collision among the strings hashed for the two roots. */
  lemma {:induction false} PaddedBinding(sha: HashFn, a: seq<Bytes>, b: seq<Bytes>)
    requires SomePlain(a) && SomePlain(b)
    ensures CollisionIn(sha, RootInputs(sha, a) + RootInputs(sha, b))
            || (Root(sha, a) == Root(sha, b) <==> Padded(a) == Padded(b))
  {
    RootBinding(sha, a, b);
    AgreePadded(sha, a, b);
  }

  /** Lists whose trees have the same height need no condition: equal roots if and only if the padded lists
      are equal, or a collision. */
  lemma {:induction false} SameHeightBinding(sha: HashFn, a: seq<Bytes>, b: seq<Bytes>)
    requires Depth(|Sort(Norm(a))|) == Depth(|Sort(Norm(b))|)
    ensures CollisionIn(sha, RootInputs(sha, a) + RootInputs(sha, b))
            || (Root(sha, a) == Root(sha, b) <==> Padded(a) == Padded(b))
  {
    var k := Depth(|Sort(Norm(a))|);
    RootBinding(sha, a, b);
    SameHeightMatch(sha, k, EntryTree(a), EntryTree(b));
    if Padded(a) == Padded(b) { LeafRowInjective(EntryTree(a), EntryTree(b), k); }
  }

  /** A row without repetition is determined by the two rows of its subtrees. */
  lemma {:induction false} RowFromSubtrees<T>(k: nat, a: seq<T>, b: seq<T>)
    requires 1 <= k && 1 <= |a| <= Pow2(k) && 1 <= |b| <= Pow2(k) && Distinct(a) && Distinct(b)
    requires Lower(k, a) == Lower(k, b) && Upper(k, a) == Upper(k, b)
    ensures a == b
  {}

  lemma {:induction false} DistinctSubrows<T>(k: nat, row: seq<T>)
    requires 1 <= k && 1 <= |row| <= Pow2(k) && Distinct(row)
    ensures Distinct(Lower(k, row)) && Distinct(Upper(k, row))
  {}

  /** The padding loses nothing: rows without repetition are equal when their trees are. */
  lemma {:induction false} BuildInjective<T>(k: nat, a: seq<T>, b: seq<T>)
    requires 1 <= |a| <= Pow2(k) && 1 <= |b| <= Pow2(k) && Distinct(a) && Distinct(b)
    requires Build(k, a) == Build(k, b)
    ensures a == b
  {
    if k > 0 {
      DistinctSubrows(k, a);
      DistinctSubrows(k, b);
      BuildInjective(k - 1, Lower(k, a), Lower(k, b));
      BuildInjective(k - 1, Upper(k, a), Upper(k, b));
      RowFromSubtrees(k, a, b);
    }
  }

  lemma {:induction false} DistinctCounts<T>(s: seq<T>, x: T)
    requires Distinct(s)
    ensures multiset(s)[x] <= 1
  {
    if s != [] {
      HeadAndTail(s);
      DistinctCounts(s[1..], x);
    }
  }

  lemma CountsDistinct<T>(s: seq<T>)
    requires forall x :: multiset(s)[x] <= 1
    ensures Distinct(s)
  {
    forall i, j | 0 <= i < j < |s| ensures s[i] != s[j] {
      assert s == s[..j] + s[j..];
      assert s[i] in s[..j] && s[j] in s[j..];
      assert multiset(s)[s[i]] == multiset(s[..j])[s[i]] + multiset(s[j..])[s[i]];
    }
  }

  lemma {:induction false} DistinctSort(hashes: seq<Bytes>)
    requires Distinct(hashes)
    ensures Distinct(Sort(hashes))
  {
    forall x ensures multiset(Sort(hashes))[x] <= 1 {
      DistinctCounts(hashes, x);
    }
    CountsDistinct(Sort(hashes));
  }

  /** The same hashes in any order, where a single empty hash counts like none. */
  ghost predicate SameHashes(a: seq<Bytes>, b: seq<Bytes>) {
    multiset(Norm(a)) == multiset(Norm(b))
  }

  /** The lists that a table with the hash as its key delivers, not all of their hashes 64 bytes long. */
  ghost predicate Regular(hashes: seq<Bytes>) {
    Distinct(hashes) && SomePlain(hashes)
  }

  lemma {:induction false} PaddedDistinct(a: seq<Bytes>, b: seq<Bytes>)
    requires Distinct(a) && Distinct(b)
    ensures Padded(a) == Padded(b) <==> SameHashes(a, b)
  {
    var s, t := Sort(Norm(a)), Sort(Norm(b));
    if Padded(a) == Padded(b) {
      LeafRowLength(EntryTree(a), Depth(|s|));
      LeafRowLength(EntryTree(b), Depth(|t|));
      if Depth(|s|) < Depth(|t|) { Pow2Grows(Depth(|s|), Depth(|t|)); }
      if Depth(|t|) < Depth(|s|) { Pow2Grows(Depth(|t|), Depth(|s|)); }
      LeafRowInjective(EntryTree(a), EntryTree(b), Depth(|s|));
      DistinctSort(Norm(a));
      DistinctSort(Norm(b));
      BuildInjective(Depth(|s|), s, t);
    } else if SameHashes(a, b) {
      SortSorted(Norm(a));
      SortSorted(Norm(b));
      SortedUnique(s, t);
    }
  }

  /** For lists without repetition trees match exactly when the hashes are the same. */
  lemma {:induction false} AgreeDistinct(sha: HashFn, a: seq<Bytes>, b: seq<Bytes>)
    requires Regular(a) && Regular(b)
    ensures Agree(sha, a, b) <==> SameHashes(a, b)
  {
    AgreePadded(sha, a, b);
    PaddedDistinct(a, b);
  }

  /** For lists without repetition: equal roots if and only if the hashes are the same, or a collision. */
  lemma {:induction false} DistinctBinding(sha: HashFn, a: seq<Bytes>, b: seq<Bytes>)
    requires Regular(a) && Regular(b)
    ensures CollisionIn(sha, RootInputs(sha, a) + RootInputs(sha, b))
            || (Root(sha, a) == Root(sha, b) <==> SameHashes(a, b))
  {
    RootBinding(sha, a, b);
    AgreeDistinct(sha, a, b);
  }

  lemma {:induction false} OnlyEmpty(a: seq<Bytes>)
    ensures multiset(a) == multiset{[]} <==> a == [[]]
    ensures multiset(a) == multiset{} <==> a == []
  {
    assert |multiset(a)| == |a|;
    if multiset(a) == multiset{[]} {
      assert |a| == 1 && a[0] in multiset(a);
    }
  }

  /** SameHashes in plain terms. */
  lemma {:induction false} SameHashesMeans(a: seq<Bytes>, b: seq<Bytes>)
    ensures SameHashes(a, b) <==>
      multiset(a) == multiset(b) || (a == [] && b == [[]]) || (a == [[]] && b == [])
  {
    OnlyEmpty(a);
    OnlyEmpty(b);
  }

  lemma {:induction false} EmptyEntryRoot(sha: HashFn, a: seq<Bytes>, b: seq<Bytes>)
    requires a == [[]] && b == []
    ensures Root(sha, a) == Root(sha, b)
  {
    RootOfTree(sha, a);
    RootOfTree(sha, b);
  }

  /** The root of no transactions is that of one empty entry, and of nothing else. */
  lemma {:induction false} EmptyBinding(sha: HashFn, a: seq<Bytes>)
    ensures Root(sha, [[]]) == Root(sha, [])
    ensures CollisionIn(sha, RootInputs(sha, a) + RootInputs(sha, []))
            || (Root(sha, a) == Root(sha, []) <==> a == [] || a == [[]])
  {
    EmptyEntryRoot(sha, [[]], []);
    RootBinding(sha, a, []);
    SortOfOne([]);
    if |Norm(a)| == 1 { SortOfOne(Norm(a)[0]); }
  }

  // ---------------------------------------------------------------- small blocks, in bytes

  lemma {:induction false} SortOfSorted(s: seq<Bytes>)
    requires Sorted(s)
    ensures Sort(s) == s
  {
    SortSorted(s);
    SortedUnique(Sort(s), s);
  }

  lemma RootOfSorted(sha: HashFn, s: seq<Bytes>)
    requires Sorted(s) && s != []
    ensures Root(sha, s) == Hex(RowRoot(sha, Leaves(sha, s)))
  {
    SortOfSorted(s);
  }

  lemma {:induction false} RootOfOneEntry(sha: HashFn, x: Bytes)
    ensures Root(sha, [x]) == Hex(sha(x))
  {
    SortOfOne(x);
    RootOfOne(sha, Leaves(sha, [x]));
  }

  lemma RootOfPair(sha: HashFn, row: seq<Digest>)
    requires |row| == 2
    ensures
      var left: Bytes, right: Bytes := row[0], row[1];
      RowRoot(sha, row) == sha(left + right)
  {
    RoundKeepsRoot(sha, row);
    NextInBytes(sha, row, 0);
    RootOfOne(sha, Next(sha, row));
  }

  /** The root of two entries: the digest of the smaller one is hashed before that of the greater one. */
  lemma {:induction false} RootOfTwo(sha: HashFn, x: Bytes, y: Bytes)
    requires LexLeq(x, y)
    ensures
      var dx: Bytes, dy: Bytes := sha(x), sha(y);
      Root(sha, [x, y]) == Root(sha, [y, x]) == Hex(sha(dx + dy))
  {
    RootOfSorted(sha, [x, y]);
    RootIgnoresOrder(sha, [x, y], [y, x]);
    RootOfPair(sha, Leaves(sha, [x, y]));
  }

  /** The root of three entries: the last digest is paired with itself. */
  lemma {:induction false} RootOfThree(sha: HashFn, x: Bytes, y: Bytes, z: Bytes)
    requires LexLeq(x, y) && LexLeq(y, z) && LexLeq(x, z)
    ensures
      var dx: Bytes, dy: Bytes, dz: Bytes := sha(x), sha(y), sha(z);
      var left: Bytes, right: Bytes := sha(dx + dy), sha(dz + dz);
      Root(sha, [x, y, z]) == Hex(sha(left + right))
  {
    var row := Leaves(sha, [x, y, z]);
    var next := Next(sha, row);
    RootOfSorted(sha, [x, y, z]);
    RoundKeepsRoot(sha, row);
    NextInBytes(sha, row, 0);
    NextInBytes(sha, row, 1);
    RootOfPair(sha, next);
  }

  // ---------------------------------------------------------------- why the leaf conditions are needed

  lemma LeavesWithLast(sha: HashFn, s: seq<Bytes>)
    requires s != []
    ensures Leaves(sha, s + [s[|s| - 1]]) == Leaves(sha, s) + [Leaves(sha, s)[|s| - 1]]
  {}

  lemma SortedWithLast(s: seq<Bytes>)
    requires Sorted(s) && s != []
    ensures Sorted(s + [s[|s| - 1]])
  {
    LexReflexive(s[|s| - 1]);
  }

  lemma PaddedRowRoot(sha: HashFn, row: seq<Digest>)
    requires |row| % 2 == 1 && |row| >= 3
    ensures RowRoot(sha, row + [row[|row| - 1]]) == RowRoot(sha, row)
  {
    NextIgnoresPadding(sha, row);
    RoundKeepsRoot(sha, row);
    RoundKeepsRoot(sha, row + [row[|row| - 1]]);
  }

  /** Without distinctness binding fails for every hash function: repeating the greatest entry of an
      odd list of three or more changes the multiset and not the root. */
  lemma RepeatedLastEntry(sha: HashFn, s: seq<Bytes>)
    requires |s| % 2 == 1 && |s| >= 3 && Sorted(s)
    ensures multiset(s + [s[|s| - 1]]) != multiset(s)
    ensures Root(sha, s + [s[|s| - 1]]) == Root(sha, s)
  {
    var last := s[|s| - 1];
    assert multiset(s + [last])[last] == multiset(s)[last] + 1;
    RootOfSorted(sha, s);
    SortedWithLast(s);
    RootOfSorted(sha, s + [last]);
    LeavesWithLast(sha, s);
    PaddedRowRoot(sha, Leaves(sha, s));
  }

  /** Without the length condition too: a 64-byte entry made of two leaf digests has the root of the
      two-entry list. */
  lemma {:induction false} LeafAsInnerNode(sha: HashFn, x: Bytes, y: Bytes)
    requires LexLeq(x, y)
    ensures Root(sha, [Cat(sha(x), sha(y))]) == Root(sha, [x, y])
    ensures multiset([Cat(sha(x), sha(y))]) != multiset([x, y])
  {
    assert |multiset([Cat(sha(x), sha(y))])| == 1 && |multiset([x, y])| == 2;
    SortOfSorted([x, y]);
    var row := Leaves(sha, [x, y]);
    assert Depth(2) == 1 && Depth(1) == 0;
    TreeOfNext(sha, 1, row);
    assert Next(sha, row)[0] == sha(Cat(sha(x), sha(y)));
    assert Sort([Cat(sha(x), sha(y))]) == [Cat(sha(x), sha(y))];
  }
}
