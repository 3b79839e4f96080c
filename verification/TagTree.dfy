/** The tag tree of `web/src/components/TagTree.tsx`, built in place from a sorted list of tags. */
module TagTree {
  import opened Text

  datatype TagAmount = TagAmount(tag: string, amount: int)

  /** The segments of a tag; the root has none. */
  type Path = seq<string>

  const SLASH := '/'

  // ---------- The default order of Array.sort ----------

  /** The UTF-16 code units of a character. */
  function UnitsOf(c: char): seq<int> {
    var n := c as int;
    if n < 0x10000 then [n] else [0xD800 + (n - 0x10000) / 0x400, 0xDC00 + (n - 0x10000) % 0x400]
  }

  /** One unit for a character of the basic plane, and otherwise a high and a low surrogate that stand for it. */
  lemma UnitsOfCharacter(c: char)
    ensures var n, u := c as int, UnitsOf(c);
            if n <= 0xFFFF then u == [n]
            else
              && |u| == 2 && 0xD800 <= u[0] <= 0xDBFF && 0xDC00 <= u[1] <= 0xDFFF
              && n == 0x10000 + (u[0] - 0xD800) * 0x400 + (u[1] - 0xDC00)
  {
  }

  function Units(s: string): seq<int> {
    if s == "" then [] else UnitsOf(s[0]) + Units(s[1..])
  }

  /** An entry is sorted by its text, which is `tag,amount`. */
  function SortKey(t: TagAmount): seq<int> {
    Units(t.tag + "," + SignedDecimal(t.amount))
  }

  predicate AtMost(a: seq<int>, b: seq<int>) {
    a == [] || (b != [] && (a[0] < b[0] || (a[0] == b[0] && AtMost(a[1..], b[1..]))))
  }

  lemma {:induction false} AtMostTotal(a: seq<int>, b: seq<int>)
    ensures AtMost(a, b) || AtMost(b, a)
  {
    if a != [] && b != [] && a[0] == b[0] {
      AtMostTotal(a[1..], b[1..]);
    }
  }

  lemma {:induction false} AtMostTransitive(a: seq<int>, b: seq<int>, c: seq<int>)
    requires AtMost(a, b) && AtMost(b, c)
    ensures AtMost(a, c)
  {
    if a != [] && a[0] == b[0] && b[0] == c[0] {
      AtMostTransitive(a[1..], b[1..], c[1..]);
    }
  }

  lemma {:induction false} AtMostBehind(p: seq<int>, a: seq<int>, b: seq<int>)
    ensures AtMost(p + a, p + b) == AtMost(a, b)
  {
    if p == [] {
      assert p + a == a && p + b == b;
    } else {
      AtMostBehind(p[1..], a, b);
      assert (p + a)[1..] == p[1..] + a && (p + b)[1..] == p[1..] + b;
    }
  }

  lemma {:induction false} UnitsConcat(s: string, t: string)
    ensures Units(s + t) == Units(s) + Units(t)
  {
    hide UnitsOf;
    if s == "" {
      assert s + t == t;
    } else {
      UnitsConcat(s[1..], t);
      assert (s + t)[1..] == s[1..] + t;
    }
  }

  /** A comma sorts before a slash: a tag comes strictly before the tags below it. */
  lemma TagBeforeItsSubtags(a: TagAmount, b: TagAmount, below: string)
    requires b.tag == a.tag + "/" + below
    ensures AtMost(SortKey(a), SortKey(b)) && !AtMost(SortKey(b), SortKey(a))
  {
    var x, y := "," + SignedDecimal(a.amount), "/" + below + "," + SignedDecimal(b.amount);
    assert a.tag + "," + SignedDecimal(a.amount) == a.tag + x && b.tag + "," + SignedDecimal(b.amount) == a.tag + y;
    UnitsConcat(a.tag, x);
    UnitsConcat(a.tag, y);
    AtMostBehind(Units(a.tag), Units(x), Units(y));
    AtMostBehind(Units(a.tag), Units(y), Units(x));
    assert x[0] == ',' && y[0] == '/';
  }

  predicate Sorted(ts: seq<TagAmount>) {
    forall i, j | 0 <= i < j < |ts| :: AtMost(SortKey(ts[i]), SortKey(ts[j]))
  }

  function Insert(t: TagAmount, ts: seq<TagAmount>): seq<TagAmount> {
    if ts == [] || AtMost(SortKey(t), SortKey(ts[0])) then [t] + ts else [ts[0]] + Insert(t, ts[1..])
  }

  function Sort(ts: seq<TagAmount>): seq<TagAmount> {
    if ts == [] then [] else Insert(ts[0], Sort(ts[1..]))
  }

  lemma {:induction false} InsertSorts(t: TagAmount, ts: seq<TagAmount>)
    requires Sorted(ts)
    ensures Sorted(Insert(t, ts)) && multiset(Insert(t, ts)) == multiset{t} + multiset(ts)
  {
    hide AtMost, SortKey;
    if ts == [] {
    } else if AtMost(SortKey(t), SortKey(ts[0])) {
      forall j | 0 <= j < |ts| ensures AtMost(SortKey(t), SortKey(ts[j])) {
        if j > 0 { AtMostTransitive(SortKey(t), SortKey(ts[0]), SortKey(ts[j])); }
      }
    } else {
      var rest := Insert(t, ts[1..]);
      InsertSorts(t, ts[1..]);
      AtMostTotal(SortKey(t), SortKey(ts[0]));
      assert ts == [ts[0]] + ts[1..];
      forall j | 0 <= j < |rest| ensures AtMost(SortKey(ts[0]), SortKey(rest[j])) {
        assert rest[j] in multiset(rest);
        assert rest[j] == t || rest[j] in ts[1..];
      }
    }
  }

  /** The sorted list is a sorted permutation. */
  lemma {:induction false} SortSorts(ts: seq<TagAmount>)
    ensures Sorted(Sort(ts)) && multiset(Sort(ts)) == multiset(ts)
  {
    if ts != [] {
      SortSorts(ts[1..]);
      InsertSorts(ts[0], Sort(ts[1..]));
      assert ts == [ts[0]] + ts[1..];
    }
  }

  predicate DistinctTags(ts: seq<TagAmount>) {
    forall i, j | 0 <= i < j < |ts| :: ts[i].tag != ts[j].tag
  }

  lemma {:induction false} InsertKeepsDistinct(t: TagAmount, ts: seq<TagAmount>)
    requires DistinctTags(ts) && forall x <- ts :: x.tag != t.tag
    ensures DistinctTags(Insert(t, ts)) && forall x :: x in Insert(t, ts) <==> x == t || x in ts
  {
    hide AtMost, SortKey;
    if ts != [] {
      assert ts == [ts[0]] + ts[1..];
      InsertKeepsDistinct(t, ts[1..]);
      var rest := Insert(t, ts[1..]);
      forall i | 0 <= i < |rest| ensures rest[i].tag != ts[0].tag {
        assert rest[i] in rest;
      }
    }
  }

  lemma {:induction false} SortKeepsDistinct(ts: seq<TagAmount>)
    requires DistinctTags(ts)
    ensures DistinctTags(Sort(ts)) && forall x :: x in Sort(ts) <==> x in ts
  {
    hide Insert;
    if ts != [] {
      SortKeepsDistinct(ts[1..]);
      assert ts == [ts[0]] + ts[1..];
      InsertKeepsDistinct(ts[0], Sort(ts[1..]));
    }
  }

  // ---------- Paths ----------

  lemma {:induction false} JoinConcat(p: Path, q: Path)
    requires p != [] && q != []
    ensures Join(p + q, SLASH) == Join(p, SLASH) + "/" + Join(q, SLASH)
  {
    if |p| == 1 {
      assert (p + q)[1..] == q;
    } else {
      JoinConcat(p[1..], q);
      assert (p + q)[1..] == p[1..] + q;
    }
  }

  lemma SplitConcat(a: string, b: string)
    ensures Split(a + "/" + b, SLASH) == Split(a, SLASH) + Split(b, SLASH)
  {
    JoinOfSplit(a, SLASH);
    JoinOfSplit(b, SLASH);
    JoinConcat(Split(a, SLASH), Split(b, SLASH));
    SplitOfJoin(Split(a, SLASH) + Split(b, SLASH), SLASH);
  }

  lemma PathIsPrefix(tag: string, p: Path)
    requires p != [] && p <= Split(tag, SLASH)
    ensures Join(p, SLASH) == tag || Join(p, SLASH) + "/" <= tag
  {
    JoinOfSplit(tag, SLASH);
    var q := Split(tag, SLASH)[|p|..];
    assert Split(tag, SLASH) == p + q;
    if q != [] {
      JoinConcat(p, q);
    } else {
      assert p + q == p;
    }
  }

  /** A tag, or what stands before one of its slashes, is the text of a path to the tag. */
  lemma PrefixIsPath(tag: string, text: string)
    requires text == tag || text + "/" <= tag
    ensures Split(text, SLASH) <= Split(tag, SLASH) && Join(Split(text, SLASH), SLASH) == text
  {
    JoinOfSplit(text, SLASH);
    if text != tag {
      var below := tag[|text| + 1..];
      assert tag == text + "/" + below;
      SplitConcat(text, below);
    }
  }

  lemma JoinInjective(p: Path, q: Path)
    requires p != [] && q != [] && Free(p, SLASH) && Free(q, SLASH) && Join(p, SLASH) == Join(q, SLASH)
    ensures p == q
  {
    SplitOfJoin(p, SLASH);
    SplitOfJoin(q, SLASH);
  }

  // ---------- The tree ----------

  class Tag {
    const key: string
    const text: string
    const amount: int
    var subTags: seq<Tag>

    constructor (key: string, text: string, amount: int)
      ensures this.key == key && this.text == text && this.amount == amount && subTags == []
    {
      this.key, this.text, this.amount, subTags := key, text, amount, [];
    }
  }

  function Parent(p: Path): Path
    requires p != []
  {
    p[..|p| - 1]
  }

  /** The node of a path carries its last segment and its text, and hangs below the node of the parent. */
  ghost predicate Placed(index: map<Path, Tag>, below: map<Path, seq<Tag>>, p: Path)
    requires p in index && below.Keys == index.Keys
  {
    p != [] ==>
      && Free(p, SLASH) && index[p].key == p[|p| - 1] && index[p].text == Join(p, SLASH)
      && Parent(p) in index && index[p] in below[Parent(p)]
  }

  /** The nodes below a node have different segments, and nothing else hangs there. */
  ghost predicate Branches(index: map<Path, Tag>, p: Path, tags: seq<Tag>) {
    && (forall c <- tags :: p + [c.key] in index && index[p + [c.key]] == c)
    && (forall i, j | 0 <= i < j < |tags| :: tags[i].key != tags[j].key)
  }

  ghost predicate Shape(index: map<Path, Tag>, below: map<Path, seq<Tag>>) {
    && below.Keys == index.Keys && [] in index
    && (forall p <- index, q <- index :: index[p] == index[q] ==> p == q)
    && (forall p <- index :: Placed(index, below, p) && Branches(index, p, below[p]))
  }

  ghost function SubTags(index: map<Path, Tag>): map<Path, seq<Tag>>
    reads index.Values
  {
    map p <- index :: index[p].subTags
  }

  /** `index` holds every node of the tree below `index[[]]` under its path. */
  ghost predicate Tree(index: map<Path, Tag>)
    reads index.Values
  {
    [] in index && Shape(index, SubTags(index))
  }

  /** The count to show for a text: its own tag's, when there is one and it exceeds 1. */
  predicate Shown(ts: seq<TagAmount>, text: string, amount: int) {
    && (forall t <- ts :: t.tag == text ==> amount == if t.amount > 1 then t.amount else 0)
    && ((forall t <- ts :: t.tag != text) ==> amount == 0)
  }

  /** `p` leads to one of the tags, or to one on the way to it. */
  predicate OnPath(ts: seq<TagAmount>, p: Path) {
    p == [] || exists t <- ts :: p <= Split(t.tag, SLASH)
  }

  method FindSubTag(node: Tag, text: string) returns (obj: Tag?)
    ensures obj == null ==> forall t <- node.subTags :: t.text != text
    ensures obj != null ==> obj in node.subTags && obj.text == text
  {
    obj := null;
    for i := 0 to |node.subTags|
      invariant forall t <- node.subTags[..i] :: t.text != text
    {
      if node.subTags[i].text == text {
        return node.subTags[i];
      }
    }
  }

  lemma PlacedStays(index: map<Path, Tag>, below: map<Path, seq<Tag>>, p: Path, obj: Tag, q: Path)
    requires below.Keys == index.Keys && p in index && p + [obj.key] !in index && q in index && Placed(index, below, q)
    ensures Placed(index[p + [obj.key] := obj], below[p := below[p] + [obj]][p + [obj.key] := []], q)
  {
    hide Join, Free;
    assert q != [] ==> Parent(q) != p + [obj.key];
  }

  lemma BranchesStay(index: map<Path, Tag>, p: Path, tags: seq<Tag>, path: Path, obj: Tag)
    requires Branches(index, p, tags) && path !in index
    ensures Branches(index[path := obj], p, tags)
    ensures path == p + [obj.key] ==> Branches(index[path := obj], p, tags + [obj])
  {
    var index' := index[path := obj];
    forall c <- tags ensures p + [c.key] in index' && index'[p + [c.key]] == c {
      assert p + [c.key] in index;
    }
    if path == p + [obj.key] {
      assert forall c <- tags :: c.key != obj.key;
    }
  }

  lemma ShapeGrows(index: map<Path, Tag>, below: map<Path, seq<Tag>>, p: Path, obj: Tag)
    requires Shape(index, below) && p in index && obj !in index.Values
    requires Free(p + [obj.key], SLASH) && obj.text == Join(p + [obj.key], SLASH) && p + [obj.key] !in index
    ensures Shape(index[p + [obj.key] := obj], below[p := below[p] + [obj]][p + [obj.key] := []])
  {
    hide Join, Free, Branches;
    var path := p + [obj.key];
    var index', below' := index[path := obj], below[p := below[p] + [obj]][path := []];
    assert Parent(path) == p && obj in below'[p];
    assert Placed(index', below', path);
    NoBranches(index', path);
    hide Placed;
    forall q <- index ensures Placed(index', below', q) && Branches(index', q, below'[q]) {
      PlacedStays(index, below, p, obj, q);
      BranchesStay(index, q, below[q], path, obj);
    }
  }

  lemma NoBranches(index: map<Path, Tag>, p: Path)
    ensures Branches(index, p, [])
  {
  }

  /** Hangs a new node below `node`, which the path `p` leads to. */
  method AddSubTag(node: Tag, key: string, text: string, amount: int, ghost p: Path, ghost index: map<Path, Tag>)
    returns (obj: Tag)
    requires Tree(index) && p in index && index[p] == node
    requires Free(p + [key], SLASH) && text == Join(p + [key], SLASH) && p + [key] !in index
    modifies node
    ensures fresh(obj) && obj.amount == amount && Tree(index[p + [key] := obj])
  {
    hide Join, Free, Placed, Branches;
    ghost var below := SubTags(index);
    obj := new Tag(key, text, amount);
    node.subTags := node.subTags + [obj];
    ShapeGrows(index, below, p, obj);
    assert SubTags(index[p + [key] := obj]) == below[p := below[p] + [obj]][p + [key] := []];
  }

  lemma JoinSnoc(p: Path, key: string)
    ensures Join(p + [key], SLASH) == if p == [] then key else Join(p, SLASH) + "/" + key
  {
    if p == [] {
      assert p + [key] == [key];
    } else {
      JoinConcat(p, [key]);
    }
  }

  /** Among the nodes below a path, the text identifies the segment. */
  lemma TextIsSegment(index: map<Path, Tag>, p: Path, key: string, obj: Tag)
    requires Tree(index) && p in index && obj in index[p].subTags && Free(p + [key], SLASH)
    requires obj.text == Join(p + [key], SLASH)
    ensures p + [key] in index && index[p + [key]] == obj
  {
    var q := p + [obj.key];
    assert Branches(index, p, SubTags(index)[p]);
    assert Placed(index, SubTags(index), q);
    JoinInjective(q, p + [key]);
  }

  lemma EarlierIsOnPath(ts: seq<TagAmount>, k: nat, j: nat, p: Path)
    requires j < k <= |ts| && p <= Split(ts[j].tag, SLASH)
    ensures OnPath(ts[..k], p)
  {
    assert ts[j] == ts[..k][j];
  }

  lemma ThereAlready(index: map<Path, Tag>, p: Path, key: string)
    requires Tree(index) && p + [key] in index
    ensures p in index && index[p + [key]] in index[p].subTags && index[p + [key]].text == Join(p + [key], SLASH)
  {
    assert Placed(index, SubTags(index), p + [key]) && Parent(p + [key]) == p;
  }

  /** No entry but its own can be the first to lead past a tag. */
  lemma FirstOnPathIsOwn(ts: seq<TagAmount>, k: nat, j: nat, p: Path)
    requires Sorted(ts) && DistinctTags(ts) && k < |ts| && j < |ts|
    requires p != [] && p <= Split(ts[k].tag, SLASH) && !OnPath(ts[..k], p) && ts[j].tag == Join(p, SLASH)
    ensures j == k
  {
    hide SortKey, AtMost, Split, Join;
    JoinOfSplit(ts[k].tag, SLASH);
    assert Free(p, SLASH) by {
      assert forall s <- p :: s in Split(ts[k].tag, SLASH);
    }
    SplitOfJoin(p, SLASH);
    if j < k {
      EarlierIsOnPath(ts, k, j, p);
    }
    if j > k {
      PathIsPrefix(ts[k].tag, p);
      TagBeforeItsSubtags(ts[j], ts[k], ts[k].tag[|ts[j].tag| + 1..]);
    }
  }

  /** The amount a new node gets is the one to show for its text. */
  lemma NewNodeIsShown(ts: seq<TagAmount>, k: nat, p: Path, amount: int)
    requires Sorted(ts) && DistinctTags(ts) && k < |ts|
    requires p != [] && p <= Split(ts[k].tag, SLASH) && !OnPath(ts[..k], p)
    requires amount == if exists t <- ts :: t.tag == Join(p, SLASH) && t.amount > 1 then ts[k].amount else 0
    ensures Shown(ts, Join(p, SLASH), amount)
  {
    hide Split, Join, Sorted, OnPath;
    forall t <- ts | t.tag == Join(p, SLASH) ensures t == ts[k] {
      var j :| 0 <= j < |ts| && ts[j] == t;
      FirstOnPathIsOwn(ts, k, j, p);
    }
  }

  /** The nodes of the tree for the first `k` tags and the first `n` segments of the next. */
  ghost predicate Covers(index: map<Path, Tag>, ts: seq<TagAmount>, k: nat, segments: Path, n: nat)
    requires k <= |ts| && n <= |segments|
  {
    forall p: Path :: p in index <==> OnPath(ts[..k], p) || p <= segments[..n]
  }

  ghost predicate AllShown(index: map<Path, Tag>, ts: seq<TagAmount>) {
    forall p <- index | p != [] :: Shown(ts, Join(p, SLASH), index[p].amount)
  }

  lemma CoversNext(index: map<Path, Tag>, ts: seq<TagAmount>, k: nat, segments: Path, n: nat, obj: Tag)
    requires k <= |ts| && n < |segments| && Covers(index, ts, k, segments, n)
    ensures Covers(index[segments[..n + 1] := obj], ts, k, segments, n + 1)
  {
    hide OnPath;
    var index' := index[segments[..n + 1] := obj];
    forall p: Path ensures p in index' <==> OnPath(ts[..k], p) || p <= segments[..n + 1] {
      PrefixNext(p, segments, n);
    }
  }

  lemma PrefixNext(p: Path, segments: Path, n: nat)
    requires n < |segments|
    ensures p <= segments[..n + 1] <==> p <= segments[..n] || p == segments[..n + 1]
  {
    if p <= segments[..n + 1] && |p| <= n {
      assert p == segments[..n + 1][..|p|] == segments[..|p|] == segments[..n][..|p|];
    }
  }

  lemma CoversOnPath(index: map<Path, Tag>, ts: seq<TagAmount>, k: nat, segments: Path, n: nat, p: Path)
    requires k <= |ts| && n <= |segments| && Covers(index, ts, k, segments, n)
    ensures OnPath(ts[..k], p) ==> p in index
  {
    hide OnPath;
  }

  lemma CoversAll(index: map<Path, Tag>, ts: seq<TagAmount>, k: nat)
    requires k < |ts|
    ensures Covers(index, ts, k, Split(ts[k].tag, SLASH), |Split(ts[k].tag, SLASH)|)
            <==> forall p: Path :: p in index <==> OnPath(ts[..k + 1], p)
    ensures Covers(index, ts, k, Split(ts[k].tag, SLASH), 0) <==> forall p: Path :: p in index <==> OnPath(ts[..k], p)
  {
    var segments := Split(ts[k].tag, SLASH);
    assert segments[..|segments|] == segments;
    assert ts[..k + 1] == ts[..k] + [ts[k]];
    forall p: Path ensures OnPath(ts[..k + 1], p) <==> OnPath(ts[..k], p) || p <= segments {
      assert forall t :: t in ts[..k + 1] <==> t in ts[..k] || t == ts[k];
    }
  }

  /** The node that the loop finds or makes below the one for `segments[..i]`. */
  method EnsureSubTag(ts: seq<TagAmount>, k: nat, node: Tag, key: string, text: string,
                      ghost p: Path, ghost index: map<Path, Tag>)
    returns (obj: Tag, ghost grown: map<Path, Tag>)
    requires k < |ts| && Sorted(ts) && DistinctTags(ts)
    requires p + [key] <= Split(ts[k].tag, SLASH) && text == Join(p + [key], SLASH)
    requires Tree(index) && p in index && index[p] == node && AllShown(index, ts)
    requires OnPath(ts[..k], p + [key]) ==> p + [key] in index
    modifies node
    ensures Tree(grown) && AllShown(grown, ts) && grown == index[p + [key] := obj]
    ensures p + [key] in index ==> obj == index[p + [key]]
    ensures p + [key] !in index ==> fresh(obj)
  {
    hide Join, Sorted, DistinctTags, Shown, OnPath, Split, Shape, SubTags;
    ghost var path := p + [key];
    assert Free(path, SLASH) by {
      JoinOfSplit(ts[k].tag, SLASH);
      assert forall s <- path :: s in Split(ts[k].tag, SLASH);
    }
    var amount := 0;
    if exists t <- ts :: t.tag == text && t.amount > 1 {
      amount := ts[k].amount;
    }
    if path in index {
      ThereAlready(index, p, key);
    }
    var found := FindSubTag(node, text);
    if found == null {
      NewNodeIsShown(ts, k, path, amount);
      obj := AddSubTag(node, key, text, amount, p, index);
    } else {
      obj := found;
      TextIsSegment(index, p, key, obj);
    }
    grown := index[path := obj];
    assert path in index ==> grown == index;
  }

  /** Walks down the segments of a tag, making the nodes that are missing. */
  method AddTag(ts: seq<TagAmount>, k: nat, root: Tag, ghost index: map<Path, Tag>)
      returns (ghost grown: map<Path, Tag>)
    requires k < |ts| && Sorted(ts) && DistinctTags(ts)
    requires Tree(index) && index[[]] == root && AllShown(index, ts)
    requires forall p: Path :: p in index <==> OnPath(ts[..k], p)
    modifies index.Values
    ensures Tree(grown) && grown[[]] == root && AllShown(grown, ts)
    ensures fresh(grown.Values - index.Values)
    ensures forall p: Path :: p in grown <==> OnPath(ts[..k + 1], p)
  {
    hide Join, Sorted, DistinctTags, AllShown, OnPath, Covers, Split, Shape, SubTags;
    var subtags := Split(ts[k].tag, SLASH);
    var tempObj, tagText := root, "";
    grown := index;
    CoversAll(index, ts, k);
    for i := 0 to |subtags|
      invariant Tree(grown) && grown[[]] == root && AllShown(grown, ts) && fresh(grown.Values - index.Values)
      invariant subtags[..i] in grown && grown[subtags[..i]] == tempObj && [] in grown
      invariant tagText == if i == 0 then "" else Join(subtags[..i], SLASH)
      invariant Covers(grown, ts, k, subtags, i)
    {
      var key := subtags[i];
      ghost var p := subtags[..i];
      assert p + [key] == subtags[..i + 1];
      JoinSnoc(p, key);
      if i == 0 {
        tagText := tagText + key;
      } else {
        tagText := tagText + "/" + key;
      }
      CoversOnPath(grown, ts, k, subtags, i, p + [key]);
      ghost var was := grown;
      tempObj, grown := EnsureSubTag(ts, k, tempObj, key, tagText, p, grown);
      CoversNext(was, ts, k, subtags, i, tempObj);
    }
    CoversAll(grown, ts, k);
  }

  lemma OrderIsIrrelevant(index: map<Path, Tag>, ts: seq<TagAmount>, us: seq<TagAmount>)
    requires forall x :: x in ts <==> x in us
    ensures AllShown(index, ts) ==> AllShown(index, us)
    ensures forall p: Path :: OnPath(ts, p) <==> OnPath(us, p)
  {
    hide Join, Split;
  }

  predicate HasText(tags: seq<Tag>, text: string) {
    exists c <- tags :: c.text == text
  }

  /** The first segment of a tag. */
  predicate BeginsTag(ts: seq<TagAmount>, text: string) {
    exists t <- ts :: Split(t.tag, SLASH)[0] == text
  }

  lemma RootNode(index: map<Path, Tag>, c: Tag)
    requires Tree(index) && c in index[[]].subTags
    ensures [c.key] in index && index[[c.key]] == c && c.text == c.key
  {
    assert Branches(index, [], SubTags(index)[[]]);
    assert [] + [c.key] == [c.key];
    assert Placed(index, SubTags(index), [c.key]);
  }

  lemma RootsAreDistinct(index: map<Path, Tag>)
    requires Tree(index)
    ensures forall i, j | 0 <= i < j < |index[[]].subTags| :: index[[]].subTags[i].text != index[[]].subTags[j].text
  {
    var tags := index[[]].subTags;
    assert Branches(index, [], SubTags(index)[[]]);
    forall i, j | 0 <= i < j < |tags| ensures tags[i].text != tags[j].text {
      RootNode(index, tags[i]);
      RootNode(index, tags[j]);
    }
  }

  /** The nodes below the root are those of the first segments of the tags. */
  lemma RootsAreFirstSegments(index: map<Path, Tag>, ts: seq<TagAmount>, text: string)
    requires Tree(index) && forall p: Path :: p in index <==> OnPath(ts, p)
    ensures HasText(index[[]].subTags, text) <==> BeginsTag(ts, text)
  {
    hide Split;
    if c :| c in index[[]].subTags && c.text == text {
      RootNode(index, c);
      var t :| t in ts && [c.key] <= Split(t.tag, SLASH);
      assert Split(t.tag, SLASH)[0] == [c.key][0] == text;
    }
    if t :| t in ts && Split(t.tag, SLASH)[0] == text {
      assert [text] <= Split(t.tag, SLASH);
      assert OnPath(ts, [text]) && [text] in index;
      assert Placed(index, SubTags(index), [text]) && Parent([text]) == [];
    }
  }

  lemma RootOnly(index: map<Path, Tag>, root: Tag)
    requires index == map[[] := root] && root.subTags == []
    ensures Tree(index) && forall p: Path :: p in index <==> OnPath([], p)
  {
  }

  /**
   The tree of a list of different tags: its paths are the prefixes of the tags at slashes, the nodes below a
   node are different, and every node shows the count of its own tag.
   */
  method BuildTree(rawTagAmounts: seq<TagAmount>) returns (tags: seq<Tag>, ghost index: map<Path, Tag>)
    requires DistinctTags(rawTagAmounts)
    ensures Tree(index) && tags == index[[]].subTags
    ensures forall p: Path :: p in index <==> OnPath(rawTagAmounts, p)
    ensures AllShown(index, rawTagAmounts)
    ensures forall i, j | 0 <= i < j < |tags| :: tags[i].text != tags[j].text
    ensures forall text :: HasText(tags, text) <==> BeginsTag(rawTagAmounts, text)
  {
    hide Sort, Sorted, DistinctTags, Split, Shown, Join, Shape, SubTags;
    var sorted := Sort(rawTagAmounts);
    SortSorts(rawTagAmounts);
    SortKeepsDistinct(rawTagAmounts);
    var root := new Tag("", "", 0);
    index := map[[] := root];
    RootOnly(index, root);
    for k := 0 to |sorted|
      invariant Tree(index) && index[[]] == root && AllShown(index, sorted) && fresh(index.Values)
      invariant forall p: Path :: p in index <==> OnPath(sorted[..k], p)
    {
      index := AddTag(sorted, k, root, index);
    }
    assert sorted[..|sorted|] == sorted;
    OrderIsIrrelevant(index, sorted, rawTagAmounts);
    tags := root.subTags;
    RootsAreDistinct(index);
    forall text ensures HasText(tags, text) <==> BeginsTag(rawTagAmounts, text) {
      RootsAreFirstSegments(index, rawTagAmounts, text);
    }
  }

  /** The text of a node is a tag, or what stands before a slash of one. */
  lemma NodeTextIsPrefix(index: map<Path, Tag>, ts: seq<TagAmount>, p: Path)
    requires Tree(index) && p in index && p != [] && OnPath(ts, p)
    ensures exists t <- ts :: index[p].text == t.tag || index[p].text + "/" <= t.tag
  {
    hide Join, Split;
    assert Placed(index, SubTags(index), p);
    var t :| t in ts && p <= Split(t.tag, SLASH);
    PathIsPrefix(t.tag, p);
  }

  /** Every tag, and what stands before its slashes, is the text of a node. */
  lemma PrefixHasNode(index: map<Path, Tag>, ts: seq<TagAmount>, t: TagAmount, text: string)
    requires Tree(index) && forall q: Path :: q in index <==> OnPath(ts, q)
    requires t in ts && (text == t.tag || text + "/" <= t.tag)
    ensures Split(text, SLASH) in index && index[Split(text, SLASH)].text == text
  {
    hide Join, Split;
    var p := Split(text, SLASH);
    PrefixIsPath(t.tag, text);
    assert OnPath(ts, p);
    assert Placed(index, SubTags(index), p);
  }

  /** Two nodes with the same text are the same node; in particular, the nodes below a node have different texts. */
  lemma NodeTextsAreDistinct(index: map<Path, Tag>, p: Path, q: Path)
    requires Tree(index) && p in index && q in index && p != [] && q != [] && index[p].text == index[q].text
    ensures p == q
  {
    assert Placed(index, SubTags(index), p) && Placed(index, SubTags(index), q);
    JoinInjective(p, q);
  }
}
