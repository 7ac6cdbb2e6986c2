/**
 * The changed-files tree of `GitStatusService`: `buildFileTree` turns the
 * list of changed paths into a nested PHP array keyed by path segment, and
 * `flattenTree` walks it depth-first into the labelled, numbered lines the
 * console shows.
 *
 * A PHP array level is modelled as a sequence of named entries in key
 * insertion order; a leaf (`true` in PHP) is `File`, a nested array is `Dir`.
 */
module FileTree {
  import opened PhpText

  datatype Node = File | Dir(children: seq<Entry>)
  datatype Entry = Entry(name: string, node: Node)

  /** The keys of one array level, in insertion order. */
  function Names(es: seq<Entry>): (ns: seq<string>)
    ensures |ns| == |es|
    ensures forall i :: 0 <= i < |es| ==> ns[i] == es[i].name
  {
    seq(|es|, i requires 0 <= i < |es| => es[i].name)
  }

  /** A PHP array has each key at most once. */
  predicate DistinctNames(es: seq<Entry>) {
    forall i, j :: 0 <= i < j < |es| ==> es[i].name != es[j].name
  }

  /** Every level of the tree has distinct keys. */
  predicate WellFormed(es: seq<Entry>)
    decreases es
  {
    DistinctNames(es) && forall i :: 0 <= i < |es| ==> NodeWellFormed(es[i].node)
  }

  predicate NodeWellFormed(n: Node)
    decreases n
  {
    match n
    case File => true
    case Dir(ch) => WellFormed(ch)
  }

  /** Position of key `name` in the level, or `|es|` when it is not set. */
  function IndexOf(es: seq<Entry>, name: string): (k: nat)
    ensures k <= |es|
    ensures forall j :: 0 <= j < k ==> es[j].name != name
    ensures k < |es| ==> es[k].name == name
  {
    if es == [] then 0
    else if es[0].name == name then 0
    else 1 + IndexOf(es[1..], name)
  }

  /**
   * One pass of the inner `foreach ($parts as $part)` of `buildFileTree`
   * starting at level `es`: a missing key is appended as an empty array, an
   * existing key keeps its position, and the last segment's slot becomes `true`.
   */
  function Insert(es: seq<Entry>, parts: seq<string>): (r: seq<Entry>)
    requires |parts| >= 1
    ensures Names(r) == if parts[0] in Names(es) then Names(es) else Names(es) + [parts[0]]
    ensures WellFormed(es) ==> WellFormed(r)
    decreases |parts|, 0
  {
    var i := IndexOf(es, parts[0]);
    if i == |es| then
      var r := es + [Entry(parts[0], Descend(Dir([]), parts[1..]))];
      assert parts[0] !in Names(es);
      assert Names(r) == Names(es) + [parts[0]];
      r
    else
      var r := es[i := Entry(parts[0], Descend(es[i].node, parts[1..]))];
      assert Names(es)[i] == parts[0];
      assert Names(r) == Names(es);
      r
  }

  /**
   * The rest of the segments below node `n`. With no segments left the slot is
   * overwritten with `true`, even when it held a directory. Indexing into a
   * `true` slot is a PHP `Error` ("Cannot use a scalar value as an array"),
   * which `BuildFileTree`'s precondition rules out; the `File` result there
   * is never reached.
   */
  function Descend(n: Node, rest: seq<string>): (r: Node)
    ensures NodeWellFormed(n) ==> NodeWellFormed(r)
    ensures rest == [] ==> r == File
    decreases |rest|, 1
  {
    if rest == [] then File
    else
      match n
      case File => File
      case Dir(ch) => Dir(Insert(ch, rest))
  }

  /** PHP `explode("/", $filePath)`. */
  function Segments(path: string): seq<string> {
    Explode(path, '/')
  }

  predicate ProperPrefix(a: seq<string>, b: seq<string>) {
    |a| < |b| && a == b[..|a|]
  }

  /**
   * No path descends below an earlier path's leaf: that earlier leaf is
   * `true`, and walking into it throws.
   */
  predicate NoPathBelowEarlierFile(paths: seq<string>) {
    forall i, j :: 0 <= i < j < |paths| ==> !ProperPrefix(Segments(paths[i]), Segments(paths[j]))
  }

  /** `buildFileTree($filePaths)`: the paths inserted one after another. */
  function BuildFileTree(paths: seq<string>): (tree: seq<Entry>)
    requires NoPathBelowEarlierFile(paths)
    ensures WellFormed(tree)
    decreases |paths|
  {
    if paths == [] then []
    else Insert(BuildFileTree(paths[..|paths| - 1]), Segments(paths[|paths| - 1]))
  }

  /** The segment lists of the leaves below `n`, relative to `n`. */
  function NodeLeaves(n: Node): seq<seq<string>>
    decreases n
  {
    match n
    case File => [[]]
    case Dir(ch) => LeafPaths(ch)
  }

  /** The segment lists of the leaves below a level, depth-first in key order. */
  function LeafPaths(es: seq<Entry>): seq<seq<string>>
    decreases es
  {
    if es == [] then [] else EntryLeaves(es[0]) + LeafPaths(es[1..])
  }

  function EntryLeaves(e: Entry): seq<seq<string>>
    decreases e
  {
    Under(e.name, NodeLeaves(e.node))
  }

  function Under(name: string, ls: seq<seq<string>>): (r: seq<seq<string>>)
    ensures |r| == |ls|
    ensures forall k :: 0 <= k < |ls| ==> r[k] == [name] + ls[k]
  {
    seq(|ls|, k requires 0 <= k < |ls| => [name] + ls[k])
  }

  lemma UnderMember(name: string, ls: seq<seq<string>>, l: seq<string>)
    ensures l in Under(name, ls) <==> |l| >= 1 && l[0] == name && l[1..] in ls
  {
    var u := Under(name, ls);
    if l in u {
      var k :| 0 <= k < |u| && u[k] == l;
      assert l[1..] == ls[k];
    }
    if |l| >= 1 && l[0] == name && l[1..] in ls {
      var k :| 0 <= k < |ls| && ls[k] == l[1..];
      assert u[k] == l;
    }
  }

  lemma {:induction false} LeafPathsAppend(a: seq<Entry>, b: seq<Entry>)
    ensures LeafPaths(a + b) == LeafPaths(a) + LeafPaths(b)
    decreases |a|
  {
    if a != [] {
      assert (a + b)[0] == a[0];
      assert (a + b)[1..] == a[1..] + b;
      LeafPathsAppend(a[1..], b);
      var x, y, z := EntryLeaves(a[0]), LeafPaths(a[1..]), LeafPaths(b);
      assert x + (y + z) == (x + y) + z;
    } else {
      assert a + b == b;
    }
  }

  /** Every leaf path starts with a key of the level it is listed from. */
  lemma {:induction false} LeafHead(es: seq<Entry>, l: seq<string>)
    requires l in LeafPaths(es)
    ensures |l| >= 1 && l[0] in Names(es)
    decreases |es|
  {
    if l in EntryLeaves(es[0]) {
      UnderMember(es[0].name, NodeLeaves(es[0].node), l);
      assert Names(es)[0] == es[0].name;
    } else {
      LeafHead(es[1..], l);
      assert Names(es[1..]) == Names(es)[1..];
    }
  }

  /** Adding a segment in front preserves (and reflects) being a proper prefix. */
  lemma ConsProperPrefix(x: string, a: seq<string>, b: seq<string>)
    ensures ProperPrefix([x] + a, [x] + b) <==> ProperPrefix(a, b)
  {
    if ProperPrefix(a, b) {
      assert ([x] + b)[..|a| + 1] == [x] + b[..|a|];
    }
    if ProperPrefix([x] + a, [x] + b) {
      assert ([x] + b)[..|a| + 1] == [x] + b[..|a|];
      assert a == ([x] + a)[1..];
    }
  }
  /** No leaf in `ls` lies strictly above `parts`: walking `parts` never enters a `true` slot. */
  predicate NoLeafAbove(ls: seq<seq<string>>, parts: seq<string>) {
    forall l :: l in ls ==> !ProperPrefix(l, parts)
  }

  /**
   * Inserting `parts` adds exactly that leaf and removes the leaves it
   * overwrites, namely those lying below it.
   */
  lemma {:induction false} InsertLeaves(es: seq<Entry>, parts: seq<string>)
    requires |parts| >= 1 && WellFormed(es)
    requires NoLeafAbove(LeafPaths(es), parts)
    ensures forall l :: l in LeafPaths(Insert(es, parts))
              <==> l == parts || (l in LeafPaths(es) && !ProperPrefix(parts, l))
    decreases |parts|, 1
  {
    if IndexOf(es, parts[0]) == |es| {
      InsertLeavesNewKey(es, parts);
    } else {
      InsertLeavesKnownKey(es, parts, IndexOf(es, parts[0]));
    }
  }

  /** A path whose first segment is a new key adds exactly its own leaf. */
  lemma {:induction false} InsertLeavesNewKey(es: seq<Entry>, parts: seq<string>)
    requires |parts| >= 1 && WellFormed(es) && IndexOf(es, parts[0]) == |es|
    ensures forall l :: l in LeafPaths(Insert(es, parts))
              <==> l == parts || (l in LeafPaths(es) && !ProperPrefix(parts, l))
    decreases |parts|, 0
  {
    var p0, rest := parts[0], parts[1..];
    HeadTail(parts);
    var e' := Entry(p0, Descend(Dir([]), rest));
    assert Insert(es, parts) == es + [e'];
    DescendLeaves(Dir([]), rest);
    LeafPathsAppend(es, [e']);
    assert LeafPaths([e']) == EntryLeaves(e');
    forall l
      ensures l in LeafPaths(es + [e'])
              <==> l == parts || (l in LeafPaths(es) && !ProperPrefix(parts, l))
    {
      EntryLeafAfterDescend(p0, Dir([]), e'.node, rest, l);
      if l in LeafPaths(es) {
        LeafHead(es, l);
      }
    }
  }

  /** A path under an existing key replaces that key's leaves by those after descending. */
  lemma {:induction false} InsertLeavesKnownKey(es: seq<Entry>, parts: seq<string>, i: nat)
    requires |parts| >= 1 && WellFormed(es) && i == IndexOf(es, parts[0]) && i < |es|
    requires NoLeafAbove(LeafPaths(es), parts)
    ensures forall l :: l in LeafPaths(Insert(es, parts))
              <==> l == parts || (l in LeafPaths(es) && !ProperPrefix(parts, l))
    decreases |parts|, 0
  {
    var p0, rest := parts[0], parts[1..];
    HeadTail(parts);
    var e := es[i];
    var e' := Entry(p0, Descend(e.node, rest));
    var a, b := es[..i], es[i + 1..];
    Splice(es, i);
    assert Insert(es, parts) == es[i := e'];
    SpliceUpdate(es, i, e');
    ChildNoLeafAbove(es, parts, i);
    DescendLeaves(e.node, rest);
    forall l
      ensures l in LeafPaths(a + [e'] + b)
              <==> l == parts || (l in LeafPaths(a + [e] + b) && !ProperPrefix(parts, l))
    {
      SpliceMember(a, e, b, l);
      SpliceMember(a, e', b, l);
      EntryLeafAfterDescend(p0, e.node, e'.node, rest, l);
      if l in LeafPaths(a) || l in LeafPaths(b) {
        OtherKeyLeaf(es, i, l);
      }
    }
  }

  /** No leaf under the key a path continues lies above the rest of the path. */
  lemma ChildNoLeafAbove(es: seq<Entry>, parts: seq<string>, i: nat)
    requires |parts| >= 1 && WellFormed(es) && i == IndexOf(es, parts[0]) && i < |es|
    requires NoLeafAbove(LeafPaths(es), parts)
    ensures NodeWellFormed(es[i].node)
    ensures NoLeafAbove(NodeLeaves(es[i].node), parts[1..])
  {
    forall m | m in NodeLeaves(es[i].node)
      ensures !ProperPrefix(m, parts[1..])
    {
      ChildLeafNotAbove(es, parts, i, m);
    }
  }

  lemma ChildLeafNotAbove(es: seq<Entry>, parts: seq<string>, i: nat, m: seq<string>)
    requires |parts| >= 1 && i == IndexOf(es, parts[0]) && i < |es|
    requires NoLeafAbove(LeafPaths(es), parts)
    requires m in NodeLeaves(es[i].node)
    ensures !ProperPrefix(m, parts[1..])
  {
    var p0 := parts[0];
    var e := es[i];
    assert e.name == p0;
    UnderMember(p0, NodeLeaves(e.node), [p0] + m);
    assert ([p0] + m)[1..] == m;
    EntryInLevel(es, i, [p0] + m);
    ConsProperPrefix(p0, m, parts[1..]);
    HeadTail(parts);
  }

  lemma HeadTail<T>(s: seq<T>)
    requires |s| >= 1
    ensures s == [s[0]] + s[1..]
  {
  }

  lemma DropHead<T>(s: seq<T>, x: T, a: seq<T>, b: seq<T>)
    requires s == [x] + a + b
    ensures |s| >= 1 && s[0] == x && s[1..] == a + b
  {
  }

  lemma Splice<T>(s: seq<T>, i: nat)
    requires i < |s|
    ensures s == s[..i] + [s[i]] + s[i + 1..]
  {
  }

  lemma SpliceUpdate<T>(s: seq<T>, i: nat, x: T)
    requires i < |s|
    ensures s[i := x] == s[..i] + [x] + s[i + 1..]
  {
  }

  /** A leaf below one entry is a leaf of the whole level. */
  lemma {:induction false} EntryInLevel(es: seq<Entry>, i: nat, l: seq<string>)
    requires i < |es| && l in EntryLeaves(es[i])
    ensures l in LeafPaths(es)
    decreases i
  {
    if i > 0 {
      assert es[1..][i - 1] == es[i];
      EntryInLevel(es[1..], i - 1, l);
    }
  }

  lemma SpliceMember(a: seq<Entry>, e: Entry, b: seq<Entry>, l: seq<string>)
    ensures l in LeafPaths(a + [e] + b)
            <==> l in LeafPaths(a) || l in EntryLeaves(e) || l in LeafPaths(b)
  {
    LeafPathsAppend(a + [e], b);
    LeafPathsAppend(a, [e]);
    assert LeafPaths([e]) == EntryLeaves(e);
  }

  /** A leaf listed under another key of a level does not start with key `i`. */
  lemma OtherKeyLeaf(es: seq<Entry>, i: nat, l: seq<string>)
    requires i < |es| && DistinctNames(es)
    requires l in LeafPaths(es[..i]) || l in LeafPaths(es[i + 1..])
    ensures |l| >= 1 && l[0] != es[i].name
  {
    if l in LeafPaths(es[..i]) {
      LeafHead(es[..i], l);
      var k :| 0 <= k < i && Names(es[..i])[k] == l[0];
      assert es[k].name == l[0];
    } else {
      LeafHead(es[i + 1..], l);
      var k :| 0 <= k < |es| - i - 1 && Names(es[i + 1..])[k] == l[0];
      assert es[i + 1 + k].name == l[0];
    }
  }

  /** Lifts `DescendLeaves` from node `n` to the entry with key `p0` above it. */
  lemma EntryLeafAfterDescend(p0: string, n: Node, n': Node, rest: seq<string>, l: seq<string>)
    requires forall m :: m in NodeLeaves(n') <==> m == rest || (m in NodeLeaves(n) && !ProperPrefix(rest, m))
    ensures l in EntryLeaves(Entry(p0, n'))
            <==> l == [p0] + rest || (l in EntryLeaves(Entry(p0, n)) && !ProperPrefix([p0] + rest, l))
  {
    UnderMember(p0, NodeLeaves(n), l);
    UnderMember(p0, NodeLeaves(n'), l);
    if |l| >= 1 && l[0] == p0 {
      assert l == [p0] + l[1..];
      ConsProperPrefix(p0, rest, l[1..]);
    } else {
      assert !ProperPrefix([p0] + rest, l) by {
        if |l| > |rest| + 1 {
          assert l[..|rest| + 1][0] == l[0];
          assert l[..|rest| + 1] != [p0] + rest;
        }
      }
      if |l| >= 1 {
        assert ([p0] + rest)[0] == p0;
      }
    }
  }

  lemma {:induction false} DescendLeaves(n: Node, rest: seq<string>)
    requires NodeWellFormed(n)
    requires NoLeafAbove(NodeLeaves(n), rest)
    ensures forall m :: m in NodeLeaves(Descend(n, rest))
              <==> m == rest || (m in NodeLeaves(n) && !ProperPrefix(rest, m))
    decreases |rest|, 2
  {
    FileLeafAbove(n, rest);
    if rest != [] && n.Dir? {
      InsertLeaves(n.children, rest);
    }
  }

  /** A file's one leaf, the empty path, lies above every longer path. */
  lemma FileLeafAbove(n: Node, rest: seq<string>)
    ensures n.File? && rest != [] ==> !NoLeafAbove(NodeLeaves(n), rest)
  {
    if n.File? && rest != [] {
      assert NodeLeaves(n)[0] == [];
      assert ProperPrefix([], rest);
    }
  }

  /**
   * Leaf `l` comes from some path that no later path overwrote by ending
   * strictly above it.
   */
  predicate Survives(paths: seq<string>, l: seq<string>) {
    exists i :: 0 <= i < |paths| && Segments(paths[i]) == l
      && forall j :: i < j < |paths| ==> !ProperPrefix(Segments(paths[j]), l)
  }

  /** The leaves of the built tree are exactly the surviving input paths. */
  lemma {:induction false} BuildFileTreeLeaves(paths: seq<string>)
    requires NoPathBelowEarlierFile(paths)
    ensures forall l :: l in LeafPaths(BuildFileTree(paths)) <==> Survives(paths, l)
    decreases |paths|
  {
    if paths != [] {
      var init, p := paths[..|paths| - 1], paths[|paths| - 1];
      assert paths == init + [p];
      var t := BuildFileTree(init);
      var s := Segments(p);
      BuildFileTreeLeaves(init);
      forall l | l in LeafPaths(t)
        ensures !ProperPrefix(l, s)
      {
        var i :| 0 <= i < |init| && Segments(init[i]) == l
                 && forall j :: i < j < |init| ==> !ProperPrefix(Segments(init[j]), l);
        assert init[i] == paths[i];
      }
      InsertLeaves(t, s);
      forall l
        ensures Survives(paths, l) <==> l == s || (Survives(init, l) && !ProperPrefix(s, l))
      {
        SurvivesSnoc(init, p, l);
      }
    }
  }

  lemma SurvivesSnoc(init: seq<string>, p: string, l: seq<string>)
    ensures Survives(init + [p], l)
            <==> l == Segments(p) || (Survives(init, l) && !ProperPrefix(Segments(p), l))
  {
    if l == Segments(p) {
      SurvivesLast(init, p);
    }
    if Survives(init + [p], l) && l != Segments(p) {
      SurvivesBeforeLast(init, p, l);
    }
    if Survives(init, l) && !ProperPrefix(Segments(p), l) {
      SurvivesPastLast(init, p, l);
    }
  }

  lemma SurvivesLast(init: seq<string>, p: string)
    ensures Survives(init + [p], Segments(p))
  {
    var paths := init + [p];
    assert Segments(paths[|init|]) == Segments(p);
  }

  lemma SurvivesBeforeLast(init: seq<string>, p: string, l: seq<string>)
    requires Survives(init + [p], l) && l != Segments(p)
    ensures Survives(init, l) && !ProperPrefix(Segments(p), l)
  {
    var paths := init + [p];
    var i :| 0 <= i < |paths| && Segments(paths[i]) == l
             && forall j :: i < j < |paths| ==> !ProperPrefix(Segments(paths[j]), l);
    assert i < |init|;
    assert paths[i] == init[i];
    assert forall j :: i < j < |init| ==> paths[j] == init[j];
    assert paths[|init|] == p;
  }

  lemma SurvivesPastLast(init: seq<string>, p: string, l: seq<string>)
    requires Survives(init, l) && !ProperPrefix(Segments(p), l)
    ensures Survives(init + [p], l)
  {
    var paths := init + [p];
    var i :| 0 <= i < |init| && Segments(init[i]) == l
             && forall j :: i < j < |init| ==> !ProperPrefix(Segments(init[j]), l);
    assert paths[i] == init[i];
    assert forall j :: i < j < |init| ==> paths[j] == init[j];
    assert paths[|init|] == p;
  }

  /** Index of the first path whose first segment is `x`, or `|paths|`. */
  function FirstUse(paths: seq<string>, x: string): (k: nat)
    ensures k <= |paths|
    ensures forall j :: 0 <= j < k ==> Segments(paths[j])[0] != x
    ensures k < |paths| ==> Segments(paths[k])[0] == x
    decreases |paths|
  {
    if paths == [] then 0
    else if Segments(paths[0])[0] == x then 0
    else 1 + FirstUse(paths[1..], x)
  }

  /**
   * The keys `ns` are the paths' first segments, each once, ordered by the
   * first path that uses them.
   */
  ghost predicate KeysByFirstUse(ns: seq<string>, paths: seq<string>) {
    (forall x :: x in ns <==> FirstUse(paths, x) < |paths|)
    && forall a, b :: 0 <= a < b < |ns| ==> FirstUse(paths, ns[a]) < FirstUse(paths, ns[b])
  }

  /** The top-level keys of the built tree come in the order their first segments first appear. */
  lemma {:induction false} BuildFileTreeKeyOrder(paths: seq<string>)
    requires NoPathBelowEarlierFile(paths)
    ensures KeysByFirstUse(Names(BuildFileTree(paths)), paths)
    decreases |paths|
  {
    if paths != [] {
      BuildFileTreeKeyOrder(paths[..|paths| - 1]);
      KeyOrderStep(paths);
    }
  }

  /** All but the last path still have none below an earlier file. */
  lemma NoPathBelowInit(paths: seq<string>)
    requires paths != [] && NoPathBelowEarlierFile(paths)
    ensures NoPathBelowEarlierFile(paths[..|paths| - 1])
  {
    var init := paths[..|paths| - 1];
    forall i, j | 0 <= i < j < |init|
      ensures !ProperPrefix(Segments(init[i]), Segments(init[j]))
    {
      assert init[i] == paths[i] && init[j] == paths[j];
    }
  }

  /** Inserting the last path keeps the top-level keys ordered by first use. */
  lemma KeyOrderStep(paths: seq<string>)
    requires paths != [] && NoPathBelowEarlierFile(paths)
    requires KeysByFirstUse(Names(BuildFileTree(paths[..|paths| - 1])), paths[..|paths| - 1])
    ensures KeysByFirstUse(Names(BuildFileTree(paths)), paths)
  {
    NoPathBelowInit(paths);
    var init := paths[..|paths| - 1];
    var x := Segments(paths[|paths| - 1])[0];
    TopKeysStep(paths);
    FirstUseStep(paths);
    OrderStep(Names(BuildFileTree(init)), Names(BuildFileTree(paths)), x, init, paths);
  }

  /** Inserting the last path adds its first segment as a key unless that key is already set. */
  lemma TopKeysStep(paths: seq<string>)
    requires paths != [] && NoPathBelowEarlierFile(paths)
    ensures var oldNames := Names(BuildFileTree(paths[..|paths| - 1]));
            var x := Segments(paths[|paths| - 1])[0];
            Names(BuildFileTree(paths)) == if x in oldNames then oldNames else oldNames + [x]
  {
    NoPathBelowInit(paths);
  }

  /** First uses in `paths` are those in all but its last path, the last path's first segment, or none. */
  lemma FirstUseStep(paths: seq<string>)
    requires paths != []
    ensures var init := paths[..|paths| - 1];
            var x := Segments(paths[|paths| - 1])[0];
            forall y :: FirstUse(paths, y)
                        == if FirstUse(init, y) < |init| then FirstUse(init, y)
                           else if x == y then |init| else |paths|
  {
    var init, p := paths[..|paths| - 1], paths[|paths| - 1];
    assert paths == init + [p];
    forall y
      ensures FirstUse(paths, y)
              == if FirstUse(init, y) < |init| then FirstUse(init, y)
                 else if Segments(p)[0] == y then |init| else |paths|
    {
      FirstUseSnoc(init, p, y);
    }
  }

  /** Appending a key that is new keeps the keys ordered by first use. */
  lemma OrderStep(oldNames: seq<string>, ns: seq<string>, x: string, init: seq<string>, paths: seq<string>)
    requires |paths| == |init| + 1
    requires ns == if x in oldNames then oldNames else oldNames + [x]
    requires forall y :: FirstUse(paths, y)
                         == if FirstUse(init, y) < |init| then FirstUse(init, y)
                            else if x == y then |init| else |paths|
    requires KeysByFirstUse(oldNames, init)
    ensures KeysByFirstUse(ns, paths)
  {
    OrderStepSorted(oldNames, ns, x, init, paths);
  }

  lemma OrderStepSorted(oldNames: seq<string>, ns: seq<string>, x: string, init: seq<string>,
                        paths: seq<string>)
    requires |paths| == |init| + 1
    requires ns == if x in oldNames then oldNames else oldNames + [x]
    requires forall y :: FirstUse(paths, y)
                         == if FirstUse(init, y) < |init| then FirstUse(init, y)
                            else if x == y then |init| else |paths|
    requires KeysByFirstUse(oldNames, init)
    ensures forall a, b :: 0 <= a < b < |ns| ==> FirstUse(paths, ns[a]) < FirstUse(paths, ns[b])
  {
    var before := y => FirstUse(init, y);
    var after := y => FirstUse(paths, y);
    SortedAppend(oldNames, ns, x, before, after, |init|);
  }

  /**
   * Keys sorted by a rank stay sorted when a key of a fresh, larger rank is
   * appended and the old keys keep their ranks.
   */
  lemma SortedAppend(oldNames: seq<string>, ns: seq<string>, x: string,
                     before: string -> nat, after: string -> nat, n: nat)
    requires ns == if x in oldNames then oldNames else oldNames + [x]
    requires forall y :: after(y) == if before(y) < n then before(y) else if x == y then n else n + 1
    requires forall y :: y in oldNames <==> before(y) < n
    requires forall a, b :: 0 <= a < b < |oldNames| ==> before(oldNames[a]) < before(oldNames[b])
    ensures forall a, b :: 0 <= a < b < |ns| ==> after(ns[a]) < after(ns[b])
  {
    forall a, b | 0 <= a < b < |ns|
      ensures after(ns[a]) < after(ns[b])
    {
      assert ns[a] == oldNames[a] && before(ns[a]) < n;
      if b < |oldNames| {
        assert ns[b] == oldNames[b] && before(ns[b]) < n;
      } else {
        assert ns[b] == x && x !in oldNames;
      }
    }
  }

  lemma {:induction false} FirstUseSnoc(init: seq<string>, p: string, y: string)
    ensures FirstUse(init + [p], y)
            == if FirstUse(init, y) < |init| then FirstUse(init, y)
               else if Segments(p)[0] == y then |init| else |init| + 1
    decreases |init|
  {
    if init != [] {
      assert (init + [p])[1..] == init[1..] + [p];
      FirstUseSnoc(init[1..], p, y);
    }
  }

  /** No changed path is a directory prefix of another. */
  predicate PrefixFree(paths: seq<string>) {
    forall i, j :: 0 <= i < |paths| && 0 <= j < |paths| ==> !ProperPrefix(Segments(paths[i]), Segments(paths[j]))
  }

  /** For prefix-free input every path becomes a leaf, and every leaf is an input path. */
  lemma TreeLeavesArePaths(paths: seq<string>)
    requires PrefixFree(paths)
    ensures forall l :: l in LeafPaths(BuildFileTree(paths))
              <==> exists i :: 0 <= i < |paths| && Segments(paths[i]) == l
  {
    BuildFileTreeLeaves(paths);
  }

  /** One row of `$treeLines`: its `label` (here `text`), and for a file its number and joined path. */
  datatype TreeLine =
    | FileLine(text: string, number: nat, rawPath: string)
    | DirLine(text: string)

  /** "├── " and "└── ". */
  function Connector(isLast: bool): string {
    if isLast then "\U{2514}\U{2500}\U{2500} " else "\U{251C}\U{2500}\U{2500} "
  }

  /** The prefix handed to a key's children: "    " below the last key, "│   " otherwise. */
  function ChildPrefix(prefix: string, isLast: bool): string {
    prefix + (if isLast then "    " else "\U{2502}   ")
  }

  /** Number of lines the walk emits for a level: one per key plus those below it. */
  function Size(es: seq<Entry>): nat
    decreases es
  {
    if es == [] then 0 else 1 + NodeSize(es[0].node) + Size(es[1..])
  }

  function NodeSize(n: Node): nat
    decreases n
  {
    match n
    case File => 0
    case Dir(ch) => Size(ch)
  }

  /** The file rows of `lines`, in order. */
  function Files(lines: seq<TreeLine>): (fs: seq<TreeLine>)
    ensures forall k :: 0 <= k < |fs| ==> fs[k].FileLine?
  {
    if lines == [] then []
    else (if lines[0].FileLine? then [lines[0]] else []) + Files(lines[1..])
  }

  lemma {:induction false} FilesAppend(a: seq<TreeLine>, b: seq<TreeLine>)
    ensures Files(a + b) == Files(a) + Files(b)
    decreases |a|
  {
    if a == [] {
      assert a + b == b;
    } else {
      assert (a + b)[0] == a[0];
      assert (a + b)[1..] == a[1..] + b;
      FilesAppend(a[1..], b);
      var x := if a[0].FileLine? then [a[0]] else [];
      assert x + (Files(a[1..]) + Files(b)) == (x + Files(a[1..])) + Files(b);
    }
  }

  /** The file rows carry the numbers `start`, `start + 1`, ... in order. */
  predicate NumberedFrom(fs: seq<TreeLine>, start: nat)
    requires forall k :: 0 <= k < |fs| ==> fs[k].FileLine?
  {
    forall k :: 0 <= k < |fs| ==> fs[k].number == start + k
  }

  lemma LeafPathsFrom(es: seq<Entry>, i: nat)
    requires i < |es|
    ensures LeafPaths(es[i..]) == EntryLeaves(es[i]) + LeafPaths(es[i + 1..])
    ensures Size(es[i..]) == 1 + NodeSize(es[i].node) + Size(es[i + 1..])
  {
    assert es[i..][0] == es[i];
    assert es[i..][1..] == es[i + 1..];
  }

  /**
   * The closure `$flattenTree` over the keys of level `es` from the `i`-th on,
   * with the shared counter at `counter`: the rows it appends and the counter
   * it leaves behind. Every file row takes the current counter and bumps it.
   */
  function FlattenFrom(es: seq<Entry>, i: nat, prefix: string, parts: seq<string>, counter: nat)
    : (r: (seq<TreeLine>, nat))
    requires i <= |es|
    ensures |r.0| == Size(es[i..])
    ensures r.1 == counter + |Files(r.0)|
    decreases es, |es| - i
  {
    if i == |es| then ([], counter)
    else
      var e := es[i];
      var isLast := i + 1 == |es|;
      var text := prefix + Connector(isLast) + e.name;
      LeafPathsFrom(es, i);
      match e.node
      case File =>
        var rest := FlattenFrom(es, i + 1, prefix, parts, counter + 1);
        var row := FileLine(text, counter, Implode(parts + [e.name], '/'));
        FilesAppend([row], rest.0);
        ([row] + rest.0, rest.1)
      case Dir(ch) =>
        assert es[i] in es;
        var sub := FlattenFrom(ch, 0, ChildPrefix(prefix, isLast), parts + [e.name], counter);
        var rest := FlattenFrom(es, i + 1, prefix, parts, sub.1);
        FilesAppend([DirLine(text)], sub.0);
        FilesAppend([DirLine(text)] + sub.0, rest.0);
        assert ch[0..] == ch;
        ([DirLine(text)] + sub.0 + rest.0, rest.1)
  }

  /** The walk at a leaf key: its numbered file row, then the walk from the next key. */
  lemma FlattenFileKey(es: seq<Entry>, i: nat, prefix: string, parts: seq<string>, counter: nat)
    requires i < |es| && es[i].node.File?
    ensures var rest := FlattenFrom(es, i + 1, prefix, parts, counter + 1);
            FlattenFrom(es, i, prefix, parts, counter)
            == ([FileLine(prefix + Connector(i + 1 == |es|) + es[i].name, counter,
                          Implode(parts + [es[i].name], '/'))] + rest.0, rest.1)
  {
  }

  /** The walk at a directory key: its row, its children's rows, then the walk from the next key. */
  lemma FlattenDirKey(es: seq<Entry>, i: nat, prefix: string, parts: seq<string>, counter: nat)
    requires i < |es| && es[i].node.Dir?
    ensures var isLast := i + 1 == |es|;
            var sub := FlattenFrom(es[i].node.children, 0, ChildPrefix(prefix, isLast), parts + [es[i].name], counter);
            var rest := FlattenFrom(es, i + 1, prefix, parts, sub.1);
            FlattenFrom(es, i, prefix, parts, counter)
            == ([DirLine(prefix + Connector(isLast) + es[i].name)] + sub.0 + rest.0, rest.1)
  {
    assert es[i].node.children[0..] == es[i].node.children;
  }

  /** The file rows of the walk take the numbers `counter`, `counter + 1`, ... in order. */
  lemma {:induction false} FlattenNumbered(es: seq<Entry>, i: nat, prefix: string, parts: seq<string>,
                                           counter: nat)
    requires i <= |es|
    ensures NumberedFrom(Files(FlattenFrom(es, i, prefix, parts, counter).0), counter)
    decreases es, |es| - i
  {
    if i < |es| {
      match es[i].node
      case File =>
        FlattenNumbered(es, i + 1, prefix, parts, counter + 1);
        NumberedFileKey(es, i, prefix, parts, counter);
      case Dir(ch) =>
        assert es[i] in es;
        var sub := FlattenFrom(ch, 0, ChildPrefix(prefix, i + 1 == |es|), parts + [es[i].name], counter);
        FlattenNumbered(ch, 0, ChildPrefix(prefix, i + 1 == |es|), parts + [es[i].name], counter);
        FlattenNumbered(es, i + 1, prefix, parts, sub.1);
        NumberedDirKey(es, i, prefix, parts, counter);
    }
  }

  lemma NumberedFileKey(es: seq<Entry>, i: nat, prefix: string, parts: seq<string>, counter: nat)
    requires i < |es| && es[i].node.File?
    requires NumberedFrom(Files(FlattenFrom(es, i + 1, prefix, parts, counter + 1).0), counter + 1)
    ensures NumberedFrom(Files(FlattenFrom(es, i, prefix, parts, counter).0), counter)
  {
    var row := FileLine(prefix + Connector(i + 1 == |es|) + es[i].name, counter,
                        Implode(parts + [es[i].name], '/'));
    var rest := FlattenFrom(es, i + 1, prefix, parts, counter + 1).0;
    FlattenFileKey(es, i, prefix, parts, counter);
    FilesAppend([row], rest);
    assert Files([row]) == [row];
    NumberedAppend([row], Files(rest), counter);
  }

  lemma NumberedDirKey(es: seq<Entry>, i: nat, prefix: string, parts: seq<string>, counter: nat)
    requires i < |es| && es[i].node.Dir?
    requires var sub := FlattenFrom(es[i].node.children, 0, ChildPrefix(prefix, i + 1 == |es|),
                                    parts + [es[i].name], counter);
             NumberedFrom(Files(sub.0), counter)
             && NumberedFrom(Files(FlattenFrom(es, i + 1, prefix, parts, sub.1).0), sub.1)
    ensures NumberedFrom(Files(FlattenFrom(es, i, prefix, parts, counter).0), counter)
  {
    DirKeyRows(es, i, prefix, parts, counter);
    var sub := FlattenFrom(es[i].node.children, 0, ChildPrefix(prefix, i + 1 == |es|),
                           parts + [es[i].name], counter);
    NumberedAppend(Files(sub.0), Files(FlattenFrom(es, i + 1, prefix, parts, sub.1).0), counter);
  }

  /** Two consecutively numbered runs, the second starting where the first stops, make one. */
  lemma NumberedAppend(a: seq<TreeLine>, b: seq<TreeLine>, counter: nat)
    requires forall k :: 0 <= k < |a| ==> a[k].FileLine?
    requires forall k :: 0 <= k < |b| ==> b[k].FileLine?
    requires NumberedFrom(a, counter) && NumberedFrom(b, counter + |a|)
    ensures NumberedFrom(a + b, counter)
  {
    forall k | 0 <= k < |a + b|
      ensures (a + b)[k].number == counter + k
    {
      if k >= |a| {
        assert (a + b)[k] == b[k - |a|];
      }
    }
  }

  /** `flattenTree($tree)`: the walk from the root with the counter starting at 1. */
  function FlattenTree(tree: seq<Entry>): (lines: seq<TreeLine>)
    ensures |lines| == Size(tree)
    ensures |Files(lines)| == |LeafPaths(tree)|
    ensures NumberedFrom(Files(lines), 1)
  {
    assert tree[0..] == tree;
    FlattenRawPaths(tree, 0, "", [], 1);
    FlattenNumbered(tree, 0, "", [], 1);
    FlattenFrom(tree, 0, "", [], 1).0
  }

  /** File rows `fs` carry, in order, the raw paths `parts` + `ls[k]` joined with "/". */
  predicate PathsMatch(fs: seq<TreeLine>, parts: seq<string>, ls: seq<seq<string>>) {
    |fs| == |ls|
    && forall k :: 0 <= k < |fs| ==> fs[k].FileLine? && fs[k].rawPath == Implode(parts + ls[k], '/')
  }

  lemma PathsMatchAppend(f1: seq<TreeLine>, f2: seq<TreeLine>, parts: seq<string>,
                         l1: seq<seq<string>>, l2: seq<seq<string>>)
    requires PathsMatch(f1, parts, l1) && PathsMatch(f2, parts, l2)
    ensures PathsMatch(f1 + f2, parts, l1 + l2)
  {
    forall k | 0 <= k < |f1 + f2|
      ensures (f1 + f2)[k].FileLine? && (f1 + f2)[k].rawPath == Implode(parts + (l1 + l2)[k], '/')
    {
      if k >= |f1| {
        assert (f1 + f2)[k] == f2[k - |f1|];
        assert (l1 + l2)[k] == l2[k - |f1|];
      }
    }
  }

  lemma PathsMatchUnder(fs: seq<TreeLine>, parts: seq<string>, name: string, ls: seq<seq<string>>)
    requires PathsMatch(fs, parts + [name], ls)
    ensures PathsMatch(fs, parts, Under(name, ls))
  {
    forall k | 0 <= k < |fs|
      ensures fs[k].rawPath == Implode(parts + Under(name, ls)[k], '/')
    {
      assert parts + ([name] + ls[k]) == parts + [name] + ls[k];
    }
  }

  /** The walk's file rows at key `i` of a leaf: its own row, then the walk from `i + 1`. */
  lemma FileKeyRows(es: seq<Entry>, i: nat, prefix: string, parts: seq<string>, counter: nat)
    requires i < |es| && es[i].node.File?
    ensures Files(FlattenFrom(es, i, prefix, parts, counter).0)
            == [FileLine(prefix + Connector(i + 1 == |es|) + es[i].name, counter,
                         Implode(parts + [es[i].name], '/'))]
               + Files(FlattenFrom(es, i + 1, prefix, parts, counter + 1).0)
    ensures LeafPaths(es[i..]) == [[es[i].name]] + LeafPaths(es[i + 1..])
  {
    var row := FileLine(prefix + Connector(i + 1 == |es|) + es[i].name, counter,
                        Implode(parts + [es[i].name], '/'));
    FlattenFileKey(es, i, prefix, parts, counter);
    FilesAppend([row], FlattenFrom(es, i + 1, prefix, parts, counter + 1).0);
    FileKeyLeaves(es, i);
  }

  lemma FileKeyLeaves(es: seq<Entry>, i: nat)
    requires i < |es| && es[i].node.File?
    ensures LeafPaths(es[i..]) == [[es[i].name]] + LeafPaths(es[i + 1..])
  {
    LeafPathsFrom(es, i);
    assert NodeLeaves(es[i].node) == [[]];
    assert [es[i].name] + [] == [es[i].name];
  }

  /** The walk's file rows at key `i` of a directory: its children's, then the walk from `i + 1`. */
  lemma DirKeyRows(es: seq<Entry>, i: nat, prefix: string, parts: seq<string>, counter: nat)
    requires i < |es| && es[i].node.Dir?
    ensures var ch := es[i].node.children;
            var sub := FlattenFrom(ch, 0, ChildPrefix(prefix, i + 1 == |es|), parts + [es[i].name], counter);
            Files(FlattenFrom(es, i, prefix, parts, counter).0)
            == Files(sub.0) + Files(FlattenFrom(es, i + 1, prefix, parts, sub.1).0)
  {
    var ch := es[i].node.children;
    var isLast := i + 1 == |es|;
    var text := prefix + Connector(isLast) + es[i].name;
    var sub := FlattenFrom(ch, 0, ChildPrefix(prefix, isLast), parts + [es[i].name], counter);
    var rest := FlattenFrom(es, i + 1, prefix, parts, sub.1);
    FlattenDirKey(es, i, prefix, parts, counter);
    FilesAfterDirLine(FlattenFrom(es, i, prefix, parts, counter).0, text, sub.0, rest.0);
  }

  /** A directory row adds no file row. */
  lemma FilesAfterDirLine(lines: seq<TreeLine>, text: string, sub: seq<TreeLine>, rest: seq<TreeLine>)
    requires lines == [DirLine(text)] + sub + rest
    ensures Files(lines) == Files(sub) + Files(rest)
  {
    DropHead(lines, DirLine(text), sub, rest);
    FilesAppend(sub, rest);
  }

  lemma DirKeyLeaves(es: seq<Entry>, i: nat)
    requires i < |es| && es[i].node.Dir?
    ensures LeafPaths(es[i..]) == Under(es[i].name, LeafPaths(es[i].node.children)) + LeafPaths(es[i + 1..])
  {
    LeafPathsFrom(es, i);
  }

  /**
   * Each file row's `raw_path` is its segments joined with "/": the rows
   * follow the leaves of the level in depth-first key order.
   */
  lemma {:induction false} FlattenRawPaths(es: seq<Entry>, i: nat, prefix: string, parts: seq<string>,
                                           counter: nat)
    requires i <= |es|
    ensures PathsMatch(Files(FlattenFrom(es, i, prefix, parts, counter).0), parts, LeafPaths(es[i..]))
    decreases es, |es| - i
  {
    if i == |es| {
      assert es[i..] == [];
    } else {
      var e := es[i];
      match e.node
      case File =>
        FileKeyRows(es, i, prefix, parts, counter);
        FlattenRawPaths(es, i + 1, prefix, parts, counter + 1);
        var row := FileLine(prefix + Connector(i + 1 == |es|) + e.name, counter,
                            Implode(parts + [e.name], '/'));
        assert parts + [e.name] == parts + [[e.name]][0];
        PathsMatchAppend([row], Files(FlattenFrom(es, i + 1, prefix, parts, counter + 1).0), parts,
                         [[e.name]], LeafPaths(es[i + 1..]));
      case Dir(ch) =>
        assert es[i] in es;
        DirKeyRows(es, i, prefix, parts, counter);
        DirKeyLeaves(es, i);
        var cp := ChildPrefix(prefix, i + 1 == |es|);
        var sub := FlattenFrom(ch, 0, cp, parts + [e.name], counter);
        FlattenRawPaths(ch, 0, cp, parts + [e.name], counter);
        assert ch[0..] == ch;
        PathsMatchUnder(Files(sub.0), parts, e.name, LeafPaths(ch));
        FlattenRawPaths(es, i + 1, prefix, parts, sub.1);
        PathsMatchAppend(Files(sub.0), Files(FlattenFrom(es, i + 1, prefix, parts, sub.1).0), parts,
                         Under(e.name, LeafPaths(ch)), LeafPaths(es[i + 1..]));
    }
  }

  lemma SliceSize(es: seq<Entry>, i: nat, k: nat)
    requires i < k <= |es|
    ensures Size(es[i..k]) == 1 + NodeSize(es[i].node) + Size(es[i + 1..k])
  {
    assert es[i..k][0] == es[i];
    assert es[i..k][1..] == es[i + 1..k];
  }

  lemma LevelSlice(es: seq<Entry>, i: nat, k: nat)
    requires i < k <= |es|
    ensures LeafPaths(es[i..k]) == EntryLeaves(es[i]) + LeafPaths(es[i + 1..k])
    ensures Size(es[i..k]) == 1 + NodeSize(es[i].node) + Size(es[i + 1..k])
  {
    assert es[i..k][0] == es[i];
    assert es[i..k][1..] == es[i + 1..k];
  }

  /**
   * Row `at` of `lines` is the row of key `e`: "└── " when it is the last key
   * and "├── " otherwise, and a file row exactly for a leaf.
   */
  predicate RowOfKey(lines: seq<TreeLine>, at: nat, e: Entry, isLast: bool, prefix: string) {
    at < |lines|
    && lines[at].text == prefix + Connector(isLast) + e.name
    && (lines[at].FileLine? <==> e.node.File?)
  }

  /** The rows right after row `at` are `sub`. */
  predicate RowsFollow(lines: seq<TreeLine>, at: nat, sub: seq<TreeLine>) {
    at + 1 + |sub| <= |lines|
    && forall m :: 0 <= m < |sub| ==> lines[at + 1 + m] == sub[m]
  }

  /**
   * Key `k` of level `es` is laid out at row `at` of `lines`: its own row
   * there and, for a directory, its children's rows right after it,
   * numbered on from `after`.
   */
  predicate KeyLaidOut(lines: seq<TreeLine>, at: nat, es: seq<Entry>, k: nat, prefix: string,
                       parts: seq<string>, after: nat)
    requires k < |es|
  {
    RowOfKey(lines, at, es[k], k + 1 == |es|, prefix)
    && (es[k].node.Dir? ==> RowsFollow(lines, at, ChildRows(es[k], k + 1 == |es|, prefix, parts, after)))
  }

  /**
   * The rows of a directory key's children: drawn with the prefix extended by
   * "    " below the last key and "│   " otherwise, numbered on from `next`.
   */
  function ChildRows(e: Entry, isLast: bool, prefix: string, parts: seq<string>, next: nat)
    : seq<TreeLine>
    requires e.node.Dir?
  {
    FlattenFrom(e.node.children, 0, ChildPrefix(prefix, isLast), parts + [e.name], next).0
  }

  /**
   * Where key `k` of a level lands in the walk: its row comes after the rows
   * of the keys before it and, for a directory, is followed at once by its
   * children's rows, numbered on from `after`, the counter once the files
   * listed before key `k` have taken their numbers.
   */
  lemma {:induction false} FlattenLayout(es: seq<Entry>, i: nat, prefix: string, parts: seq<string>,
                                         counter: nat, k: nat, after: nat)
    requires i <= k < |es|
    requires after == counter + |LeafPaths(es[i..k])|
    ensures KeyLaidOut(FlattenFrom(es, i, prefix, parts, counter).0, Size(es[i..k]), es, k, prefix, parts, after)
    decreases |es| - i
  {
    if k == i {
      assert es[i..k] == [];
      assert after == counter && Size(es[i..k]) == 0;
      LayoutHere(es, i, prefix, parts, counter);
    } else {
      var next := counter + |EntryLeaves(es[i])|;
      LevelSlice(es, i, k);
      assert after == next + |LeafPaths(es[i + 1..k])|;
      FlattenLayout(es, i + 1, prefix, parts, next, k, after);
      LayoutStep(es, i, prefix, parts, counter, next, k, after);
    }
  }

  /** The walk from key `i` opens with the row of key `i` and, for a directory, its children's rows. */
  lemma LayoutHere(es: seq<Entry>, i: nat, prefix: string, parts: seq<string>, counter: nat)
    requires i < |es|
    ensures KeyLaidOut(FlattenFrom(es, i, prefix, parts, counter).0, 0, es, i, prefix, parts, counter)
  {
    var lines := FlattenFrom(es, i, prefix, parts, counter).0;
    var text := prefix + Connector(i + 1 == |es|) + es[i].name;
    if es[i].node.File? {
      FlattenFileKey(es, i, prefix, parts, counter);
      var rest := FlattenFrom(es, i + 1, prefix, parts, counter + 1).0;
      HeadRows(lines, FileLine(text, counter, Implode(parts + [es[i].name], '/')), [], rest);
    } else {
      var sub := ChildRows(es[i], i + 1 == |es|, prefix, parts, counter);
      LayoutHereDir(es, i, prefix, parts, counter, lines, text, sub);
    }
  }

  lemma LayoutHereDir(es: seq<Entry>, i: nat, prefix: string, parts: seq<string>, counter: nat,
                      lines: seq<TreeLine>, text: string, sub: seq<TreeLine>)
    requires i < |es| && es[i].node.Dir?
    requires lines == FlattenFrom(es, i, prefix, parts, counter).0
    requires text == prefix + Connector(i + 1 == |es|) + es[i].name
    requires sub == ChildRows(es[i], i + 1 == |es|, prefix, parts, counter)
    ensures RowOfKey(lines, 0, es[i], i + 1 == |es|, prefix)
    ensures RowsFollow(lines, 0, sub)
  {
    var isLast := i + 1 == |es|;
    var r := FlattenFrom(es[i].node.children, 0, ChildPrefix(prefix, isLast), parts + [es[i].name], counter);
    FlattenDirKey(es, i, prefix, parts, counter);
    HeadRows(lines, DirLine(text), sub, FlattenFrom(es, i + 1, prefix, parts, r.1).0);
  }

  /** The first row of `[row] + sub + rest`, and the rows right after it. */
  lemma HeadRows(lines: seq<TreeLine>, row: TreeLine, sub: seq<TreeLine>, rest: seq<TreeLine>)
    requires lines == [row] + sub + rest
    ensures |lines| == 1 + |sub| + |rest| && lines[0] == row
    ensures forall m :: 0 <= m < |sub| ==> lines[1 + m] == sub[m]
  {
  }

  lemma LayoutStep(es: seq<Entry>, i: nat, prefix: string, parts: seq<string>, counter: nat,
                   next: nat, k: nat, after: nat)
    requires i < k < |es|
    requires next == counter + |EntryLeaves(es[i])|
    requires KeyLaidOut(FlattenFrom(es, i + 1, prefix, parts, next).0, Size(es[i + 1..k]), es, k, prefix, parts, after)
    ensures KeyLaidOut(FlattenFrom(es, i, prefix, parts, counter).0, Size(es[i..k]), es, k, prefix, parts, after)
  {
    var d := 1 + NodeSize(es[i].node);
    var at, at2 := Size(es[i + 1..k]), Size(es[i..k]);
    SliceSize(es, i, k);
    var lines := FlattenFrom(es, i, prefix, parts, counter).0;
    var rest := FlattenFrom(es, i + 1, prefix, parts, next).0;
    FlattenStep(es, i, prefix, parts, counter, next);
    ShiftLaidOut(lines, rest, d, at, at2, es, k, prefix, parts, after);
  }

  /** Rows laid out in `rest` keep their layout when `rest` follows `d` other rows. */
  lemma ShiftLaidOut(lines: seq<TreeLine>, rest: seq<TreeLine>, d: nat, at: nat, at2: nat, es: seq<Entry>,
                     k: nat, prefix: string, parts: seq<string>, after: nat)
    requires k < |es| && at2 == d + at
    requires Shifted(lines, rest, d)
    requires KeyLaidOut(rest, at, es, k, prefix, parts, after)
    ensures KeyLaidOut(lines, at2, es, k, prefix, parts, after)
  {
    ShiftRows(lines, rest, d, at, at2, es[k], k + 1 == |es|, prefix);
    if es[k].node.Dir? {
      ShiftFollow(lines, rest, d, at, at2, ChildRows(es[k], k + 1 == |es|, prefix, parts, after));
    }
  }

  lemma ShiftRows(lines: seq<TreeLine>, rest: seq<TreeLine>, d: nat, at: nat, at2: nat, e: Entry,
                  isLast: bool, prefix: string)
    requires Shifted(lines, rest, d) && at2 == d + at
    requires RowOfKey(rest, at, e, isLast, prefix)
    ensures RowOfKey(lines, at2, e, isLast, prefix)
  {
    assert lines[d + at] == rest[at];
  }

  lemma ShiftFollow(lines: seq<TreeLine>, rest: seq<TreeLine>, d: nat, at: nat, at2: nat,
                    sub: seq<TreeLine>)
    requires Shifted(lines, rest, d) && at2 == d + at
    requires RowsFollow(rest, at, sub)
    ensures RowsFollow(lines, at2, sub)
  {
    forall m | 0 <= m < |sub|
      ensures lines[at2 + 1 + m] == sub[m]
    {
      assert lines[d + (at + 1 + m)] == rest[at + 1 + m];
    }
  }

  /** The walk from key `i` is the rows of key `i` followed by the walk from key `i + 1`. */
  lemma FlattenStep(es: seq<Entry>, i: nat, prefix: string, parts: seq<string>, counter: nat,
                    next: nat)
    requires i < |es|
    requires next == counter + |EntryLeaves(es[i])|
    ensures var lines := FlattenFrom(es, i, prefix, parts, counter).0;
            var rest := FlattenFrom(es, i + 1, prefix, parts, next).0;
            Shifted(lines, rest, 1 + NodeSize(es[i].node))
  {
    if es[i].node.File? {
      FlattenStepFile(es, i, prefix, parts, counter, next);
    } else {
      FlattenStepDir(es, i, prefix, parts, counter, next);
    }
  }

  lemma FlattenStepFile(es: seq<Entry>, i: nat, prefix: string, parts: seq<string>, counter: nat,
                        next: nat)
    requires i < |es| && es[i].node.File?
    requires next == counter + |EntryLeaves(es[i])|
    ensures var lines := FlattenFrom(es, i, prefix, parts, counter).0;
            var rest := FlattenFrom(es, i + 1, prefix, parts, next).0;
            Shifted(lines, rest, 1 + NodeSize(es[i].node))
  {
    assert NodeLeaves(es[i].node) == [[]];
    assert next == counter + 1 && NodeSize(es[i].node) == 0;
    FileKeyShift(es, i, prefix, parts, counter);
  }

  lemma FileKeyShift(es: seq<Entry>, i: nat, prefix: string, parts: seq<string>, counter: nat)
    requires i < |es| && es[i].node.File?
    ensures Shifted(FlattenFrom(es, i, prefix, parts, counter).0, FlattenFrom(es, i + 1, prefix, parts, counter + 1).0, 1)
  {
    var rest := FlattenFrom(es, i + 1, prefix, parts, counter + 1).0;
    var row := FileLine(prefix + Connector(i + 1 == |es|) + es[i].name, counter, Implode(parts + [es[i].name], '/'));
    FlattenFileKey(es, i, prefix, parts, counter);
    ConcatShift(FlattenFrom(es, i, prefix, parts, counter).0, [row], rest, 1);
  }

  lemma FlattenStepDir(es: seq<Entry>, i: nat, prefix: string, parts: seq<string>, counter: nat,
                       next: nat)
    requires i < |es| && es[i].node.Dir?
    requires next == counter + |EntryLeaves(es[i])|
    ensures var lines := FlattenFrom(es, i, prefix, parts, counter).0;
            var rest := FlattenFrom(es, i + 1, prefix, parts, next).0;
            Shifted(lines, rest, 1 + NodeSize(es[i].node))
  {
    var lines := FlattenFrom(es, i, prefix, parts, counter).0;
    var rest := FlattenFrom(es, i + 1, prefix, parts, next).0;
    var isLast := i + 1 == |es|;
    var text := prefix + Connector(isLast) + es[i].name;
    var d := 1 + NodeSize(es[i].node);
    var ch := es[i].node.children;
    var sub := FlattenFrom(ch, 0, ChildPrefix(prefix, isLast), parts + [es[i].name], counter);
    DirKeyWalk(es, i, ChildPrefix(prefix, isLast), parts + [es[i].name], counter);
    assert sub.1 == next;
    var head := [DirLine(text)] + sub.0;
    assert |head| == d;
    FlattenDirKey(es, i, prefix, parts, counter);
    assert FlattenFrom(es, i, prefix, parts, counter).0 == head + FlattenFrom(es, i + 1, prefix, parts, sub.1).0;
    assert lines == head + rest;
    ConcatShift(lines, head, rest, d);
  }

  /** The walk below a directory key has one row per node under it and counts the key's leaves. */
  lemma DirKeyWalk(es: seq<Entry>, i: nat, prefix: string, parts: seq<string>, counter: nat)
    requires i < |es| && es[i].node.Dir?
    ensures var sub := FlattenFrom(es[i].node.children, 0, prefix, parts, counter);
            sub.1 == counter + |EntryLeaves(es[i])| && |sub.0| == NodeSize(es[i].node)
  {
    var ch := es[i].node.children;
    FlattenCount(ch, prefix, parts, counter);
    assert |EntryLeaves(es[i])| == |LeafPaths(ch)|;
  }

  /** Walking a whole level advances the counter by the number of its leaves. */
  lemma FlattenCount(es: seq<Entry>, prefix: string, parts: seq<string>, counter: nat)
    ensures FlattenFrom(es, 0, prefix, parts, counter).1 == counter + |LeafPaths(es)|
    ensures |FlattenFrom(es, 0, prefix, parts, counter).0| == Size(es)
  {
    assert es[0..] == es;
    FlattenRawPaths(es, 0, prefix, parts, counter);
  }

  /** Where the second part of a concatenation sits. */
  lemma ConcatShift(lines: seq<TreeLine>, head: seq<TreeLine>, rest: seq<TreeLine>, d: nat)
    requires lines == head + rest && |head| == d
    ensures Shifted(lines, rest, d)
  {
  }

  /** `lines` is `d` rows followed by `rest`. */
  ghost predicate Shifted(lines: seq<TreeLine>, rest: seq<TreeLine>, d: nat) {
    |lines| == d + |rest| && forall m :: 0 <= m < |rest| ==> lines[d + m] == rest[m]
  }

  /**
   * For changed paths none of which is a directory prefix of another, the
   * numbered rows list exactly the changed paths.
   */
  lemma {:induction false} TreeListsChangedFiles(paths: seq<string>)
    requires PrefixFree(paths)
    ensures ListsExactly(Files(FlattenTree(BuildFileTree(paths))), paths)
  {
    var tree := BuildFileTree(paths);
    var fs := Files(FlattenTree(BuildFileTree(paths)));
    assert tree[0..] == tree;
    FlattenRawPaths(tree, 0, "", [], 1);
    assert PathsMatch(fs, [], LeafPaths(tree));
    TreeLeavesArePaths(paths);
    RawPathsArePaths(fs, LeafPaths(tree), paths);
  }

  /** The file rows `fs` carry exactly the raw paths `paths`: each row one of them, each of them on a row. */
  ghost predicate ListsExactly(fs: seq<TreeLine>, paths: seq<string>) {
    forall p :: (exists k :: 0 <= k < |fs| && fs[k].FileLine? && fs[k].rawPath == p) <==> p in paths
  }

  /** Rows whose raw paths join the segment lists of `paths` list exactly `paths`. */
  lemma RawPathsArePaths(fs: seq<TreeLine>, ls: seq<seq<string>>, paths: seq<string>)
    requires PathsMatch(fs, [], ls)
    requires forall l :: l in ls <==> exists i :: 0 <= i < |paths| && Segments(paths[i]) == l
    ensures ListsExactly(fs, paths)
  {
    forall p
      ensures (exists k :: 0 <= k < |fs| && fs[k].FileLine? && fs[k].rawPath == p) <==> p in paths
    {
      if k :| 0 <= k < |fs| && fs[k].FileLine? && fs[k].rawPath == p {
        assert ls[k] in ls;
        var i :| 0 <= i < |paths| && Segments(paths[i]) == ls[k];
        assert [] + ls[k] == ls[k];
        assert p == paths[i];
      }
      if p in paths {
        var i :| 0 <= i < |paths| && paths[i] == p;
        assert Segments(paths[i]) in ls;
        var k :| 0 <= k < |ls| && ls[k] == Segments(p);
        assert [] + ls[k] == ls[k];
        assert fs[k].rawPath == p;
      }
    }
  }

  /** No segment list occurs twice in `ls`. */
  predicate NoRepeats(ls: seq<seq<string>>) {
    forall i, j :: 0 <= i < j < |ls| ==> ls[i] != ls[j]
  }

  lemma UnderNoRepeats(name: string, ls: seq<seq<string>>)
    requires NoRepeats(ls)
    ensures NoRepeats(Under(name, ls))
  {
    var u := Under(name, ls);
    forall i, j | 0 <= i < j < |u|
      ensures u[i] != u[j]
    {
      assert u[i][1..] == ls[i];
      assert u[j][1..] == ls[j];
    }
  }

  lemma AppendNoRepeats(a: seq<seq<string>>, b: seq<seq<string>>)
    requires NoRepeats(a) && NoRepeats(b)
    requires forall l :: l in a ==> l !in b
    ensures NoRepeats(a + b)
  {
    var ab := a + b;
    forall i, j | 0 <= i < j < |ab|
      ensures ab[i] != ab[j]
    {
      if i >= |a| {
        assert ab[i] == b[i - |a|] && ab[j] == b[j - |a|];
      } else if j >= |a| {
        assert ab[i] == a[i] && ab[j] == b[j - |a|];
        assert a[i] in a;
      }
    }
  }

  lemma WellFormedTail(es: seq<Entry>)
    requires es != [] && WellFormed(es)
    ensures WellFormed(es[1..])
  {
    assert forall i :: 0 <= i < |es| - 1 ==> es[1..][i] == es[i + 1];
  }

  /** In a tree whose levels have distinct keys, no two leaves have the same segments. */
  lemma {:induction false} LeavesNoRepeats(es: seq<Entry>)
    requires WellFormed(es)
    ensures NoRepeats(LeafPaths(es))
    decreases es
  {
    if es != [] {
      var e := es[0];
      assert e in es;
      WellFormedTail(es);
      LeavesNoRepeats(es[1..]);
      match e.node {
        case File =>
          assert NodeLeaves(e.node) == [[]];
        case Dir(ch) =>
          LeavesNoRepeats(ch);
      }
      UnderNoRepeats(e.name, NodeLeaves(e.node));
      forall l | l in LeafPaths(es[1..])
        ensures |l| >= 1 && l[0] != e.name
      {
        LeafHead(es[1..], l);
        var k :| 0 <= k < |es| - 1 && Names(es[1..])[k] == l[0];
        assert es[k + 1].name == l[0];
      }
      forall l | l in EntryLeaves(e)
        ensures l !in LeafPaths(es[1..])
      {
        UnderMember(e.name, NodeLeaves(e.node), l);
      }
      AppendNoRepeats(EntryLeaves(e), LeafPaths(es[1..]));
    }
  }

  /**
   * No two file rows of the change tree carry the same raw path: together
   * with the rows listing every changed file, each changed file is on
   * exactly one row.
   */
  lemma FileRowsDistinct(paths: seq<string>)
    requires NoPathBelowEarlierFile(paths)
    ensures var fs := Files(FlattenTree(BuildFileTree(paths)));
            forall i, j :: 0 <= i < j < |fs| ==> fs[i].rawPath != fs[j].rawPath
  {
    var tree := BuildFileTree(paths);
    var ls := LeafPaths(tree);
    var fs := Files(FlattenTree(tree));
    assert tree[0..] == tree;
    FlattenRawPaths(tree, 0, "", [], 1);
    assert PathsMatch(fs, [], ls);
    LeavesNoRepeats(tree);
    BuildFileTreeLeaves(paths);
    forall i, j | 0 <= i < j < |fs|
      ensures fs[i].rawPath != fs[j].rawPath
    {
      assert ls[i] in ls && ls[j] in ls;
      assert [] + ls[i] == ls[i] && [] + ls[j] == ls[j];
    }
  }

  /**
   * The paths below key `x`, in order, each with `x` taken off the front:
   * what the subtree at `x` is built from. A path that is `x` itself has
   * nothing below it and is left out.
   */
  function TailPaths(paths: seq<string>, x: string): seq<string>
    decreases |paths|
  {
    if paths == [] then []
    else
      var s := Segments(paths[|paths| - 1]);
      TailPaths(paths[..|paths| - 1], x) + (if s[0] == x && |s| >= 2 then [Implode(s[1..], '/')] else [])
  }

  /**
   * At every level of the tree the keys come in the order their segment
   * first appears among the paths that reach that level, each taken with
   * the keys above the level removed.
   */
  ghost predicate KeysByFirstUseBelow(es: seq<Entry>, paths: seq<string>)
    decreases es
  {
    KeysByFirstUse(Names(es), paths)
    && forall k :: 0 <= k < |es| && es[k].node.Dir? ==>
         KeysByFirstUseBelow(es[k].node.children, TailPaths(paths, es[k].name))
  }

  /** The key order of `BuildFileTreeKeyOrder` holds at every level, not only at the top. */
  lemma BuildFileTreeNestedKeyOrder(paths: seq<string>)
    requires NoPathBelowEarlierFile(paths)
    ensures KeysByFirstUseBelow(BuildFileTree(paths), paths)
  {
    NestedKeyOrderAt(paths, BuildFileTree(paths));
  }

  lemma {:induction false} NestedKeyOrderAt(paths: seq<string>, es: seq<Entry>)
    requires NoPathBelowEarlierFile(paths) && es == BuildFileTree(paths)
    ensures KeysByFirstUseBelow(es, paths)
    decreases es
  {
    BuildFileTreeKeyOrder(paths);
    forall k | 0 <= k < |es| && es[k].node.Dir?
      ensures KeysByFirstUseBelow(es[k].node.children, TailPaths(paths, es[k].name))
    {
      assert es[k] in es;
      ChildBuilt(paths, k);
      NestedKeyOrderAt(TailPaths(paths, es[k].name), es[k].node.children);
    }
  }

  /** The joined tail of a path splits back into the path's segments after the first. */
  lemma SegmentsOfTail(p: string)
    requires |Segments(p)| >= 2
    ensures Segments(Implode(Segments(p)[1..], '/')) == Segments(p)[1..]
  {
    var s := Segments(p);
    assert forall k :: 0 <= k < |s| - 1 ==> s[1..][k] == s[k + 1];
    ExplodeImplode(s[1..], '/');
  }

  /** Each tail below `x` comes from an input path that starts with `x`. */
  lemma {:induction false} TailOrigin(paths: seq<string>, x: string, u: string)
    requires u in TailPaths(paths, x)
    ensures exists i :: 0 <= i < |paths| && Segments(paths[i]) == [x] + Segments(u)
    decreases |paths|
  {
    var init, p := paths[..|paths| - 1], paths[|paths| - 1];
    var s := Segments(p);
    if u in TailPaths(init, x) {
      TailOrigin(init, x, u);
      var i :| 0 <= i < |init| && Segments(init[i]) == [x] + Segments(u);
      assert paths[i] == init[i];
    } else {
      assert s[0] == x && |s| >= 2 && u == Implode(s[1..], '/');
      SegmentsOfTail(p);
      assert s == [x] + s[1..];
    }
  }

  /** No path has a tail below `x` when none starts with `x`. */
  lemma {:induction false} NoTails(paths: seq<string>, x: string)
    requires forall j :: 0 <= j < |paths| ==> Segments(paths[j])[0] != x
    ensures TailPaths(paths, x) == []
    decreases |paths|
  {
    if paths != [] {
      var init := paths[..|paths| - 1];
      assert forall j :: 0 <= j < |init| ==> init[j] == paths[j];
      NoTails(init, x);
    }
  }

  /** A path can follow paths none of which ends above it. */
  lemma NoPathBelowSnoc(init: seq<string>, t: string)
    requires NoPathBelowEarlierFile(init)
    requires forall i :: 0 <= i < |init| ==> !ProperPrefix(Segments(init[i]), Segments(t))
    ensures NoPathBelowEarlierFile(init + [t])
  {
    var ps := init + [t];
    forall i, j | 0 <= i < j < |ps|
      ensures !ProperPrefix(Segments(ps[i]), Segments(ps[j]))
    {
      assert ps[i] == init[i];
      if j < |init| {
        assert ps[j] == init[j];
      }
    }
  }

  /**
   * The last path, when it goes below `x`, adds its tail after the earlier
   * tails below `x`, and none of those ends above it.
   */
  lemma TailsStep(paths: seq<string>, x: string)
    requires paths != [] && NoPathBelowEarlierFile(paths)
    requires NoPathBelowEarlierFile(TailPaths(paths[..|paths| - 1], x))
    ensures NoPathBelowEarlierFile(TailPaths(paths, x))
  {
    var init, p := paths[..|paths| - 1], paths[|paths| - 1];
    var s := Segments(p);
    var tp := TailPaths(init, x);
    if s[0] == x && |s| >= 2 {
      var t := Implode(s[1..], '/');
      SegmentsOfTail(p);
      forall i | 0 <= i < |tp|
        ensures !ProperPrefix(Segments(tp[i]), s[1..])
      {
        assert tp[i] in tp;
        TailOrigin(init, x, tp[i]);
        var j :| 0 <= j < |init| && Segments(init[j]) == [x] + Segments(tp[i]);
        assert paths[j] == init[j];
        assert s == [x] + s[1..];
        ConsProperPrefix(x, Segments(tp[i]), s[1..]);
      }
      NoPathBelowSnoc(tp, t);
    }
  }

  /**
   * A key of the built tree that holds a directory holds the tree built
   * from the tails of the paths below it.
   */
  lemma {:induction false} ChildBuilt(paths: seq<string>, k: nat)
    requires NoPathBelowEarlierFile(paths)
    requires k < |BuildFileTree(paths)| && BuildFileTree(paths)[k].node.Dir?
    ensures NoPathBelowEarlierFile(TailPaths(paths, BuildFileTree(paths)[k].name))
    ensures BuildFileTree(paths)[k].node.children == BuildFileTree(TailPaths(paths, BuildFileTree(paths)[k].name))
    decreases |paths|
  {
    var init, p := paths[..|paths| - 1], paths[|paths| - 1];
    var s := Segments(p);
    NoPathBelowInit(paths);
    var t0 := BuildFileTree(init);
    var t := BuildFileTree(paths);
    var x := t[k].name;
    assert t == Insert(t0, s);
    var i0 := IndexOf(t0, s[0]);
    if s[0] != x {
      assert k < |t0| && t[k] == t0[k];
      ChildBuilt(init, k);
      assert TailPaths(paths, x) == TailPaths(init, x);
    } else if i0 == |t0| {
      assert k == |t0|;
      assert |s| >= 2;
      BuildFileTreeKeyOrder(init);
      assert x !in Names(t0);
      NoTails(init, x);
      SegmentsOfTail(p);
      var tl := Implode(s[1..], '/');
      assert TailPaths(paths, x) == [tl];
      assert [tl][..0] == [];
    } else {
      assert t[i0].name == x;
      assert k == i0;
      assert |s| >= 2 && t0[k].node.Dir?;
      ChildBuilt(init, k);
      TailsStep(paths, x);
      SegmentsOfTail(p);
      var tp := TailPaths(init, x);
      var tl := Implode(s[1..], '/');
      assert TailPaths(paths, x) == tp + [tl];
      assert (tp + [tl])[..|tp|] == tp;
    }
  }
}
