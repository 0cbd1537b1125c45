/** The trie of pkg/router/router.go: one tree of mutable nodes for each method. The ghost map `at` names every node
    by the keys on the way to it, which makes the invariant flat: each node is right on its own. */
module RouterTree {
  import opened RouteSpec
  import opened Wrappers

  type Handler = nat

  datatype AddResult = Added | PanicFrozen | PanicDuplicate | PanicIndices

  datatype Route = Route(handler: Handler, paramKeys: seq<string>, fullPath: string)

  /** One segment of a template (router.go:37-43). */
  datatype Segment = Segment(raw: string, isParam: bool, isWild: bool, paramName: string) {
    function Key(): string {
      if isParam then ":" else if isWild then "*" else raw
    }
  }

  function Keys(segments: seq<Segment>): (p: Path)
    ensures |p| == |segments|
  {
    seq(|segments|, i requires 0 <= i < |segments| => segments[i].Key())
  }

  lemma NamesOfNothing()
    ensures Names([]) == []
  {
  }

  lemma NamesOneMore(segments: seq<Segment>, i: nat)
    requires i < |segments|
    ensures var seg := segments[i];
      Names(segments[..i + 1]) == Names(segments[..i]) + if seg.isParam || seg.isWild then [seg.paramName] else []
  {
    assert segments[..i + 1][..i] == segments[..i];
  }

  function Names(segments: seq<Segment>): seq<string> {
    if segments == [] then []
    else
      var last := segments[|segments| - 1];
      Names(segments[..|segments| - 1]) + if last.isParam || last.isWild then [last.paramName] else []
  }

  class Node {
    const path: string
    var fullPath: string
    var indices: string
    var children: seq<Node>
    var handler: Option<Handler>
    var paramKeys: seq<string>
    var priority: nat

    constructor (path: string)
      ensures this.path == path && indices == "" && children == [] && handler == None && priority == 0
      ensures paramKeys == [] && fullPath == "" && Aligned()
    {
      this.path := path;
      fullPath, indices, children, handler, paramKeys, priority := "", "", [], None, [], 0;
      new;
      assert InOrder(Firsts(children), 0);
    }

    ghost predicate Aligned()
      reads `indices, `children
    {
      AlignedSeqs(indices, children)
    }
  }

  /** What `string(b)` makes of a first byte: from 0x80 on, two bytes. */
  function Index(c: char): string {
    if c < '\U{80}' then [c] else [(0xC0 + c as int / 0x40) as char, (0x80 + c as int % 0x40) as char]
  }

  predicate AllLead(firsts: string) {
    forall i :: 0 <= i < |firsts| ==> Leads(firsts[i])
  }

  function Indices(firsts: string): string {
    if firsts == "" then "" else Index(firsts[0]) + Indices(firsts[1..])
  }

  /** ASCII first bytes come first, in order. */
  predicate InOrder(firsts: string, n: nat) {
    && n <= |firsts|
    && (forall i, j :: 0 <= i < j < n ==> firsts[i] <= firsts[j])
    && forall i :: 0 <= i < |firsts| ==> (firsts[i] < '\U{80}' <==> i < n)
  }

  /** Children are distinct; while their keys start as UTF-8 does, `indices` is made from their first bytes. */
  ghost predicate AlignedSeqs(indices: string, children: seq<Node>) {
    && (forall i, j :: 0 <= i < j < |children| ==> children[i] != children[j])
    && (forall i :: 0 <= i < |children| ==> children[i].path != "")
    && (AllLead(Firsts(children)) ==>
          indices == Indices(Firsts(children)) && exists n: nat :: InOrder(Firsts(children), n))
  }

  ghost function Firsts(children: seq<Node>): (firsts: string)
    requires forall i :: 0 <= i < |children| ==> children[i].path != ""
    ensures |firsts| == |children| && forall i :: 0 <= i < |children| ==> firsts[i] == children[i].path[0]
  {
    seq(|children|, i requires 0 <= i < |children| => children[i].path[0])
  }

  /** Where the search of `insertChild` stops: before the first greater byte. */
  function Place(indices: string, c: char): (i: nat)
    ensures i <= |indices| && (forall j :: 0 <= j < i ==> indices[j] <= c) && (i < |indices| ==> indices[i] > c)
  {
    if indices == "" || indices[0] > c then 0 else 1 + Place(indices[1..], c)
  }

  /** What a node's next child depends on: its index bytes, and how many children it has. */
  datatype Line = Line(indices: string, children: nat) {
    /** `insertChild` panics: the key has no first byte, or its place is behind all children. */
    predicate NoPlace(key: string) {
      key == "" || Place(indices, key[0]) > children
    }
  }

  const NOBODY := Line("", 0)

  /** Registration needs a node for the first `n` + 1 keys and cannot make it. */
  predicate StuckAt(lines: map<Path, Line>, keys: Path, n: nat)
    requires n < |keys|
  {
    keys[..n + 1] !in lines && (if keys[..n] in lines then lines[keys[..n]] else NOBODY).NoPlace(keys[n])
  }

  predicate Stuck(lines: map<Path, Line>, keys: Path) {
    exists n :: 0 <= n < |keys| && StuckAt(lines, keys, n)
  }

  lemma {:induction false} IndicesConcat(a: string, b: string)
    ensures Indices(a + b) == Indices(a) + Indices(b)
  {
    if a == "" {
      assert a + b == b;
    } else {
      assert (a + b)[1..] == a[1..] + b;
      IndicesConcat(a[1..], b);
    }
  }

  lemma {:induction false} IndicesOfAscii(a: string)
    requires forall i :: 0 <= i < |a| ==> a[i] < '\U{80}'
    ensures Indices(a) == a
  {
    if a == "" {
    } else {
      IndicesOfAscii(a[1..]);
    }
  }

  lemma {:induction false} IndicesBeyond(b: string)
    requires forall i :: 0 <= i < |b| ==> Leads(b[i]) && b[i] >= '\U{80}'
    ensures |Indices(b)| == 2 * |b| && (b != "" ==> Indices(b)[0] == '\U{C3}')
    ensures forall i :: 0 <= i < |Indices(b)| ==> '\U{80}' <= Indices(b)[i] <= '\U{C3}'
  {
    if b == "" {
    } else {
      IndicesBeyond(b[1..]);
    }
  }

  /** The indices of children in order: `n` bytes for those in ASCII, then two for each of the others. */
  lemma IndicesInOrder(firsts: string, n: nat)
    requires AllLead(firsts) && InOrder(firsts, n)
    ensures Indices(firsts) == firsts[..n] + Indices(firsts[n..])
    ensures |Indices(firsts)| == n + 2 * (|firsts| - n)
    ensures n < |firsts| ==> Indices(firsts)[n] == '\U{C3}'
    ensures forall i :: n <= i < |Indices(firsts)| ==> '\U{80}' <= Indices(firsts)[i] <= '\U{C3}'
  {
    IndicesOfAscii(firsts[..n]);
    IndicesBeyond(firsts[n..]);
    IndicesConcat(firsts[..n], firsts[n..]);
    assert firsts == firsts[..n] + firsts[n..];
  }

  /** For bytes that start a character in UTF-8, the place found in `indices` is a place among the ASCII children or
      right behind them, unless `c` is 0xC3 or more and some child lies beyond ASCII. */
  lemma PlaceIsRight(firsts: string, n: nat, c: char)
    requires AllLead(firsts) && InOrder(firsts, n) && Leads(c)
    ensures var i := Place(Indices(firsts), c);
            && (i > |firsts| <==> c >= '\U{C3}' && n < |firsts|)
            && (i <= |firsts| ==> i <= n && Indices(firsts)[..i] == firsts[..i] && (c < '\U{80}' || i == n))
            && (forall j :: 0 <= j < i && j < n ==> firsts[j] <= c) && (i < n ==> firsts[i] > c)
  {
    hide Indices, InOrder, AllLead;
    IndicesInOrder(firsts, n);
    var indices, i := Indices(firsts), Place(Indices(firsts), c);
    AsciiFirst(firsts, n);
    assert indices[..n] == firsts[..n] && forall j :: 0 <= j < n ==> indices[j] == indices[..n][j];
    assert n < |firsts| && c >= '\U{C3}' ==> i == |indices|;
    assert i <= n ==> indices[..i] == firsts[..i];
  }

  lemma AsciiFirst(firsts: string, n: nat)
    requires InOrder(firsts, n)
    ensures n <= |firsts| && forall j :: 0 <= j < n ==> firsts[j] < '\U{80}'
  {
  }

  /** For others it need not be: beside a key that starts with 0xA9, one that starts with 0xC2 has no place. */
  lemma OthersLoseTheirPlace()
    ensures Line(Indices("\U{A9}"), 1).NoPlace("\U{C2}x") && !Crowded({["\U{A9}"]}, [], "\U{C2}x")
  {
    var firsts := "\U{A9}";
    assert firsts[1..] == "" && Indices(firsts) == ['\U{C2}', '\U{A9}'];
    assert Place(['\U{C2}', '\U{A9}'], '\U{C2}') == 2;
  }

  lemma InOrderInsert(firsts: string, n: nat, i: nat, c: char)
    requires InOrder(firsts, n) && i <= n && (c < '\U{80}' || i == n)
    requires forall j :: 0 <= j < i ==> firsts[j] <= c
    requires i < n ==> firsts[i] > c
    ensures InOrder(InsertAt(firsts, i, c), if c < '\U{80}' then n + 1 else n)
  {
    assert forall j :: i < j < n ==> firsts[i] <= firsts[j];
  }

  lemma IndicesInsert(firsts: string, i: nat, c: char)
    requires i <= |firsts| && i <= |Indices(firsts)|
    requires Indices(firsts)[..i] == firsts[..i] && forall j :: 0 <= j < i ==> firsts[j] < '\U{80}'
    ensures Indices(InsertAt(firsts, i, c)) == Indices(firsts)[..i] + Index(c) + Indices(firsts)[i..]
  {
    hide Indices, Index;
    var a, b := firsts[..i], firsts[i..];
    IndicesOfAscii(a);
    IndicesOfOne(c);
    IndicesConcat(a, b);
    IndicesConcat(a, [c]);
    IndicesConcat(a + [c], b);
    assert firsts == a + b;
    assert InsertAt(firsts, i, c) == a + [c] + b;
    assert Indices(firsts) == a + Indices(b);
    assert Indices(firsts)[i..] == Indices(b);
  }

  lemma IndicesOfOne(c: char)
    ensures Indices([c]) == Index(c)
  {
    assert [c][1..] == "";
  }

  function InsertAt<T>(s: seq<T>, i: nat, x: T): (r: seq<T>)
    requires i <= |s|
    ensures |r| == |s| + 1
    ensures forall j :: 0 <= j < |r| ==> r[j] == if j < i then s[j] else if j == i then x else s[j - 1]
  {
    s[..i] + [x] + s[i..]
  }

  lemma InsertedMembers<T>(s: seq<T>, i: nat, x: T)
    requires i <= |s|
    ensures forall c :: c in InsertAt(s, i, x) <==> c in s || c == x
  {
    assert s == s[..i] + s[i..];
  }

  lemma FirstsInsert(children: seq<Node>, i: nat, child: Node)
    requires i <= |children| && child.path != "" && child !in children
    requires forall j :: 0 <= j < |children| ==> children[j].path != ""
    requires forall j, k :: 0 <= j < k < |children| ==> children[j] != children[k]
    ensures var after := InsertAt(children, i, child);
            && (forall j, k :: 0 <= j < k < |after| ==> after[j] != after[k])
            && (forall j :: 0 <= j < |after| ==> after[j].path != "")
            && Firsts(after) == InsertAt(Firsts(children), i, child.path[0])
  {
    assert forall j :: 0 <= j < |children| ==> children[j] != child;
  }

  lemma SomeBeyond(children: seq<Node>, n: nat)
    requires forall j :: 0 <= j < |children| ==> children[j].path != ""
    requires InOrder(Firsts(children), n)
    ensures n < |children| <==> exists c :: c in children && BeyondAscii(c.path)
  {
    if n < |children| {
      assert children[n] in children && BeyondAscii(children[n].path);
    }
  }

  lemma AlignedInsert(indices: string, children: seq<Node>, child: Node)
    requires AlignedSeqs(indices, children) && child !in children && child.path != ""
    ensures var c := child.path[0];
            var i := Place(indices, c);
            i <= |children| ==> AlignedSeqs(indices[..i] + Index(c) + indices[i..], InsertAt(children, i, child))
  {
    hide Indices, Index, InsertAt, BeyondAscii, InOrder, Leads;
    var firsts, c := Firsts(children), child.path[0];
    var i := Place(indices, c);
    if i <= |children| {
      FirstsInsert(children, i, child);
      if AllLead(InsertAt(firsts, i, c)) {
        LeadsWithout(firsts, i, c);
        var n: nat :| InOrder(firsts, n);
        PlaceIsRight(firsts, n, c);
        PlaceTakes(firsts, n, i, c);
      }
    }
  }

  lemma LeadsWithout(firsts: string, i: nat, c: char)
    requires i <= |firsts| && AllLead(InsertAt(firsts, i, c))
    ensures AllLead(firsts) && Leads(c)
  {
    var after := InsertAt(firsts, i, c);
    assert after[i] == c;
    forall j | 0 <= j < |firsts|
      ensures Leads(firsts[j])
    {
      assert firsts[j] == after[if j < i then j else j + 1];
    }
  }

  /** A node whose children's keys start as UTF-8 does has no place for exactly these keys. */
  lemma NoPlaceExactly(indices: string, children: seq<Node>, key: string)
    requires AlignedSeqs(indices, children) && AllLead(Firsts(children)) && (key != "" ==> Leads(key[0]))
    ensures Line(indices, |children|).NoPlace(key) <==>
            key == "" || (key[0] >= '\U{C3}' && exists c :: c in children && BeyondAscii(c.path))
  {
    hide Indices, BeyondAscii, InOrder, Leads;
    var firsts := Firsts(children);
    var n: nat :| InOrder(firsts, n);
    SomeBeyond(children, n);
    if key != "" {
      PlaceIsRight(firsts, n, key[0]);
    }
  }

  lemma PlaceTakes(firsts: string, n: nat, i: nat, c: char)
    requires InOrder(firsts, n) && i <= n && (c < '\U{80}' || i == n)
    requires i <= |Indices(firsts)| && Indices(firsts)[..i] == firsts[..i]
    requires (forall j :: 0 <= j < i ==> firsts[j] <= c) && (i < n ==> firsts[i] > c)
    ensures var after := InsertAt(firsts, i, c);
            && (exists m: nat :: InOrder(after, m))
            && Indices(after) == Indices(firsts)[..i] + Index(c) + Indices(firsts)[i..]
  {
    InOrderInsert(firsts, n, i, c);
    IndicesInsert(firsts, i, c);
  }

  lemma SnocInjective(p: Path, s: string, q: Path, s': string)
    requires p + [s] == q + [s']
    ensures p == q && s == s'
  {
    assert (p + [s])[..|p|] == p && (q + [s'])[..|q|] == q && (p + [s])[|p|] == s && (q + [s'])[|q|] == s';
  }

  /** The nodes of a trie by the keys on the way to them: all prefixes are there, and no node twice. */
  ghost predicate Named(at: map<Path, Node>, root: Node) {
    && [] in at && at[[]] == root
    && (forall p, q :: p in at && q in at && p != q ==> at[p] != at[q])
    && (forall p :: p in at ==> IsTemplate(p) && forall n :: 0 <= n <= |p| ==> p[..n] in at)
  }

  /** `children` are the nodes one key further than `p`. */
  ghost predicate Linked(at: map<Path, Node>, p: Path, children: seq<Node>) {
    && (forall c :: c in children ==> p + [c.path] in at && at[p + [c.path]] == c)
    && (forall s: string :: p + [s] in at ==> at[p + [s]] in children && at[p + [s]].path == s)
  }

  lemma NamedAfter(at: map<Path, Node>, root: Node, p: Path, key: string, child: Node)
    requires Named(at, root) && p in at && p + [key] !in at && IsKey(key) && forall q :: q in at ==> at[q] != child
    ensures Named(at[p + [key] := child], root)
  {
    var at', last := at[p + [key] := child], p + [key];
    forall n | 0 <= n <= |last|
      ensures last[..n] in at'
    {
      assert n <= |p| ==> last[..n] == p[..n];
      assert n == |last| ==> last[..n] == last;
    }
  }

  lemma LinkedElsewhere(at: map<Path, Node>, p: Path, key: string, child: Node, q: Path, children: seq<Node>)
    requires Linked(at, q, children) && q != p && p + [key] !in at
    ensures Linked(at[p + [key] := child], q, children)
  {
    forall s: string | q + [s] == p + [key]
      ensures false
    {
      SnocInjective(q, s, p, key);
    }
  }

  lemma LinkedHere(at: map<Path, Node>, p: Path, key: string, child: Node, before: seq<Node>, after: seq<Node>)
    requires Linked(at, p, before) && p + [key] !in at && child.path == key
    requires forall c :: c in after <==> c in before || c == child
    ensures Linked(at[p + [key] := child], p, after)
  {
    forall s: string | p + [s] == p + [key]
      ensures s == key
    {
      SnocInjective(p, s, p, key);
    }
  }

  lemma LinkedLeaf(at: map<Path, Node>, root: Node, p: Path, key: string, child: Node)
    requires Named(at, root) && p + [key] !in at
    ensures Linked(at[p + [key] := child], p + [key], [])
  {
    forall s: string
      ensures (p + [key]) + [s] !in at[p + [key] := child]
    {
      assert ((p + [key]) + [s])[..|p| + 1] == p + [key];
    }
  }

  /** The templates that start with `p`. */
  ghost function Below(templates: set<Path>, p: Path): set<Path> {
    set t | t in templates && p <= t
  }

  class Tree {
    const root: Node
    ghost var at: map<Path, Node>
    ghost var routes: map<Path, Route>

    constructor ()
      ensures Valid() && Tight() && Prioritized() && fresh(Nodes()) && routes == map[] && Lines() == map[[] := NOBODY]
    {
      root := new Node("");
      at, routes := map[[] := root], map[];
      new;
    }

    ghost function Nodes(): set<Node>
      reads `at
    {
      set p | p in at :: at[p]
    }

    /** Every node's line. */
    ghost function Lines(): map<Path, Line>
      reads `at, Nodes()`indices, Nodes()`children
    {
      map p | p in at :: Line(at[p].indices, |at[p].children|)
    }

    ghost predicate Labelled(n: Node, p: Path)
      reads `routes, n`handler, n`paramKeys, n`fullPath
    {
      if p in routes then
        && n.handler == Some(routes[p].handler) && n.paramKeys == routes[p].paramKeys
        && n.fullPath == routes[p].fullPath
      else n.handler == None && n.paramKeys == []
    }

    /** Each node has the right children and, if a route ends there, the route's handler and parameter names. */
    ghost predicate NodeAt(p: Path)
      requires p in at
      reads `at, `routes, (at[p] as Node)`indices, (at[p] as Node)`children
      reads (at[p] as Node)`handler, (at[p] as Node)`paramKeys, (at[p] as Node)`fullPath
    {
      at[p].Aligned() && Linked(at, p, at[p].children) && Labelled(at[p], p)
    }

    ghost predicate Valid()
      reads `at, `routes
      reads Nodes()`indices, Nodes()`children, Nodes()`handler, Nodes()`paramKeys, Nodes()`fullPath
    {
      Named(at, root) && routes.Keys <= at.Keys && forall p :: p in at ==> NodeAt(p)
    }

    /** Every node lies on the way to a route. */
    ghost predicate Tight()
      reads this
    {
      forall p :: p in at ==> p == [] || Extends(routes.Keys, p)
    }

    /** A node's priority is the number of routes at or below it. */
    ghost predicate Prioritized()
      reads `at, `routes, Nodes()`priority
    {
      forall p :: p in at ==> at[p].priority == |Below(routes.Keys, p)|
    }

    /** Nodes are there exactly for the prefixes of templates: the trie is an index of the plain set. */
    lemma NodesArePrefixes(p: Path)
      requires Named(at, root) && routes.Keys <= at.Keys && Tight()
      ensures p in at <==> p == [] || Extends(routes.Keys, p)
    {
      if Extends(routes.Keys, p) {
        var t :| t in routes.Keys && p <= t;
        assert t[..|p|] == p;
      }
    }

    // ---------- registration ----------

    static method FindChild(parent: Node, path: string) returns (child: Node?)
      requires path == "" || IsKey(path)
      requires forall i :: 0 <= i < |parent.children| ==> IsKey(parent.children[i].path)
      ensures child == null ==> forall i :: 0 <= i < |parent.children| ==> parent.children[i].path != path
      ensures child != null ==> child in parent.children && child.path == path
    {
      var i := 0;
      while i < |parent.children|
        invariant i <= |parent.children|
        invariant forall j :: 0 <= j < i ==> parent.children[j].path != path
      {
        var c := parent.children[i];
        if path == ":" {
          if |c.path| > 0 && c.path[0] == ':' {
            return c;
          }
        } else if path == "*" {
          if |c.path| > 0 && c.path[0] == '*' {
            return c;
          }
        } else if c.path == path {
          return c;
        }
        i := i + 1;
      }
      return null;
    }

    /** Inserts the index before the first greater byte of `indices`, and the child at the same number; false stands
        for the panic if there are not so many children, or no byte to insert. */
    static method InsertChild(parent: Node, child: Node) returns (ok: bool)
      requires parent.Aligned() && child !in parent.children
      modifies parent`indices, parent`children
      ensures ok <==> !Line(old(parent.indices), |old(parent.children)|).NoPlace(child.path)
      ensures ok ==> parent.Aligned()
      ensures ok ==> forall c :: c in parent.children <==> c in old(parent.children) || c == child
      ensures !ok ==> parent.children == old(parent.children)
    {
      hide AlignedSeqs, InsertAt;
      if child.path == "" {
        return false;
      }
      var i := 0;
      while i < |parent.indices|
        invariant i <= |parent.indices|
        invariant forall j :: 0 <= j < i ==> parent.indices[j] <= child.path[0]
      {
        if parent.indices[i] > child.path[0] {
          break;
        }
        i := i + 1;
      }
      assert i == Place(parent.indices, child.path[0]);
      AlignedInsert(parent.indices, parent.children, child);
      parent.indices := parent.indices[..i] + Index(child.path[0]) + parent.indices[i..];
      if i > |parent.children| {
        return false;
      }
      InsertedMembers(parent.children, i, child);
      parent.children := InsertAt(parent.children, i, child);
      return true;
    }

    /** One step of registration: the child of the node at `p` for `key`, made if it is not there yet, unless that
        panics. */
    method Descend(ghost p: Path, current: Node, key: string) returns (child: Node?)
      requires Valid() && p in at && at[p] == current && (key == "" || IsKey(key))
      modifies `at, current`indices, current`children
      ensures child == null <==> p + [key] !in old(at) && old(Lines())[p].NoPlace(key)
      ensures child == null ==> at == old(at)
      ensures child != null ==> Valid() && p + [key] in at && at[p + [key]] == child
      ensures child != null && p + [key] in old(at) ==> at == old(at) && Lines() == old(Lines())
      ensures child != null && p + [key] !in old(at) ==>
        at == old(at)[p + [key] := child] && fresh(child) && child.priority == 0 && Lines()[p + [key]] == NOBODY
    {
      hide Named, NodeAt, Line.NoPlace;
      ChildrenAreKeys(p);
      var found := FindChild(current, key);
      if found != null {
        return found;
      }
      child := Grow(p, current, key);
    }

    lemma ChildrenAreKeys(p: Path)
      requires Valid() && p in at
      ensures forall i :: 0 <= i < |at[p].children| ==> IsKey(at[p].children[i].path)
      ensures forall c :: c in at[p].children ==> p + [c.path] in at && at[p + [c.path]] == c
      ensures forall s: string :: p + [s] in at ==> at[p + [s]] in at[p].children && at[p + [s]].path == s
    {
      assert NodeAt(p);
      forall i | 0 <= i < |at[p].children|
        ensures IsKey(at[p].children[i].path)
      {
        var c := at[p].children[i];
        assert c in at[p].children && (p + [c.path])[|p|] == c.path;
      }
    }

    /** Makes the child of the node at `p` for a key it has no child for. */
    method Grow(ghost p: Path, current: Node, key: string) returns (child: Node?)
      requires Valid() && p in at && at[p] == current && (key == "" || IsKey(key)) && p + [key] !in at
      modifies `at, current`indices, current`children
      ensures child == null <==> Line(old(current.indices), |old(current.children)|).NoPlace(key)
      ensures child == null ==> at == old(at)
      ensures child != null ==>
        Valid() && at == old(at)[p + [key] := child] && fresh(child) && child.priority == 0
      ensures child != null ==> Lines()[p + [key]] == NOBODY
    {
      hide Linked, Node.Aligned, Line.NoPlace, Named;
      assert NodeAt(p);
      child := new Node(key);
      LinkedLeaf(at, root, p, key, child);
      assert child !in current.children;
      var ok := InsertChild(current, child);
      if !ok {
        return null;
      }
      PlaceMeansKey(Line(old(current.indices), |old(current.children)|), key);
      NamedAfter(at, root, p, key, child);
      LinkedHere(at, p, key, child, old(current.children), current.children);
      at := at[p + [key] := child];
      forall q | q in at
        ensures NodeAt(q)
      {
        if q in old(at) && q != p {
          DistinctNodes(p, q);
          assert old(NodeAt(q)) && at[q] != current;
          LinkedElsewhere(old(at), p, key, child, q, at[q].children);
        }
      }
    }

    /** Every node lies on the way to a route or to `done`. */
    ghost predicate OnTheWay(done: Path)
      reads `at, `routes
    {
      forall p :: p in at ==> p == [] || Extends(routes.Keys, p) || p <= done
    }

    /** The priorities while the route with keys starting in `done` is being added. */
    ghost predicate Counted(done: Path)
      reads `at, `routes, Nodes()`priority
    {
      forall p :: p in at ==> at[p].priority == |Below(routes.Keys, p)| + if p <= done then 1 else 0
    }

    /** One round of registration: down to the child, and count the route there; null stands for the panic. */
    method Visit(ghost done: Path, current: Node, key: string) returns (child: Node?)
      requires Valid() && OnTheWay(done) && done in at && at[done] == current && (key == "" || IsKey(key))
      modifies `at, Nodes()
      ensures child == null <==> done + [key] !in old(at) && old(Lines())[done].NoPlace(key)
      ensures child == null ==> at == old(at)
      ensures child != null ==> Valid() && OnTheWay(done + [key]) && done + [key] in at && at[done + [key]] == child
      ensures child != null && old(Counted(done)) ==> Counted(done + [key])
      ensures child != null && done + [key] in old(at) ==> at == old(at) && Lines() == old(Lines())
      ensures child != null && done + [key] !in old(at) ==>
        at == old(at)[done + [key] := child] && fresh(child) && Lines()[done + [key]] == NOBODY
    {
      hide NodeAt, Extends, Named, Below, Line.NoPlace;
      ghost var keys := done + [key];
      NothingBelow(keys);
      child := Descend(done, current, key);
      if child == null {
        return;
      }
      child.priority := child.priority + 1;
      forall p | p in at
        ensures p == [] || Extends(routes.Keys, p) || p <= keys
        ensures old(Counted(done)) ==> at[p].priority == |Below(routes.Keys, p)| + if p <= keys then 1 else 0
      {
        PrefixOfSnoc(p, done, key);
        DistinctNodes(p, keys);
      }
    }

    /** If all keys start as UTF-8 does, registration is stuck exactly if the templates leave no place. */
    lemma StuckExactly(keys: Path)
      requires Valid() && Tight() && IsUtf8(keys) && forall t :: t in routes ==> IsUtf8(t)
      ensures Stuck(Lines(), keys) <==> Crowds(routes.Keys, keys)
    {
      hide Valid, Tight, Extends, Crowded, StuckAt;
      forall n | 0 <= n < |keys|
        ensures StuckAt(Lines(), keys, n) <==> Crowded(routes.Keys, keys[..n], keys[n])
      {
        StuckExactlyAt(keys, n);
      }
      if Stuck(Lines(), keys) {
        var n :| 0 <= n < |keys| && StuckAt(Lines(), keys, n);
        assert Crowded(routes.Keys, keys[..n], keys[n]);
      }
      if Crowds(routes.Keys, keys) {
        var n :| 0 <= n < |keys| && Crowded(routes.Keys, keys[..n], keys[n]);
        assert StuckAt(Lines(), keys, n);
      }
    }

    lemma StuckExactlyAt(keys: Path, n: nat)
      requires Valid() && Tight() && n < |keys| && IsUtf8(keys) && forall t :: t in routes ==> IsUtf8(t)
      ensures StuckAt(Lines(), keys, n) <==> Crowded(routes.Keys, keys[..n], keys[n])
    {
      hide NodeAt, Tight, Extends, Line.NoPlace;
      var p, key := keys[..n], keys[n];
      assert keys[..n + 1] == p + [key];
      NodesArePrefixes(p + [key]);
      if p in at {
        ChildrenAreUtf8(p);
        NoPlaceExactly(at[p].indices, at[p].children, key);
        SomeChildBeyond(p);
      } else {
        PlaceOfNobody(key);
        forall s: string
          ensures !Extends(routes.Keys, p + [s])
        {
          NodesArePrefixes(p + [s]);
          assert (p + [s])[..n] == p;
        }
      }
    }

    lemma ChildrenAreUtf8(p: Path)
      requires Valid() && Tight() && p in at && forall t :: t in routes ==> IsUtf8(t)
      ensures at[p].Aligned() && AllLead(Firsts(at[p].children))
    {
      hide Tight, Extends, Named;
      assert NodeAt(p);
      var children := at[p].children;
      forall i | 0 <= i < |children|
        ensures Leads(children[i].path[0])
      {
        var q := p + [children[i].path];
        assert children[i] in children && q in at;
        assert Extends(routes.Keys, q) by { NodesArePrefixes(q); }
        ExtensionIsUtf8(routes.Keys, p, children[i].path);
      }
    }

    /** A node has a child beyond ASCII exactly if some template goes on that way. */
    lemma SomeChildBeyond(p: Path)
      requires Valid() && Tight() && p in at
      ensures (exists c :: c in at[p].children && BeyondAscii(c.path)) <==>
              exists s :: BeyondAscii(s) && Extends(routes.Keys, p + [s])
    {
      hide Tight, Extends, BeyondAscii;
      assert NodeAt(p);
      if c :| c in at[p].children && BeyondAscii(c.path) {
        assert p + [c.path] in at;
        NodesArePrefixes(p + [c.path]);
      }
      if s :| BeyondAscii(s) && Extends(routes.Keys, p + [s]) {
        NodesArePrefixes(p + [s]);
        assert at[p + [s]] in at[p].children && at[p + [s]].path == s;
      }
    }

    lemma DistinctNodes(p: Path, q: Path)
      requires Named(at, root) && p in at && q in at
      ensures p != q ==> at[p] != at[q]
    {
    }

    /** No template goes through a node that is not there. */
    lemma NothingBelow(p: Path)
      requires Named(at, root) && routes.Keys <= at.Keys
      ensures p !in at ==> Below(routes.Keys, p) == {}
    {
      forall t | t in routes && p <= t
        ensures p in at
      {
        assert t[..|p|] == p;
      }
    }

    /** The last step of registration: label the node reached. */
    method Register(ghost keys: Path, current: Node, handler: Handler, paramKeys: seq<string>, fullPath: string)
      requires Valid() && OnTheWay(keys) && keys in at && at[keys] == current && keys !in routes
      modifies `routes, current`handler, current`paramKeys, current`fullPath
      ensures Valid() && Tight() && routes == old(routes)[keys := Route(handler, paramKeys, fullPath)]
      ensures old(Counted(keys)) ==> Prioritized()
    {
      hide Linked, Node.Aligned, Named, Extends, Below;
      current.handler := Some(handler);
      current.paramKeys := paramKeys;
      current.fullPath := fullPath;
      routes := routes[keys := Route(handler, paramKeys, fullPath)];
      forall p | p in at
        ensures NodeAt(p)
      {
        assert old(NodeAt(p));
        DistinctNodes(p, keys);
      }
      forall p | p in at
        ensures p == [] || Extends(routes.Keys, p)
        ensures |Below(routes.Keys, p)| == |Below(old(routes).Keys, p)| + if p <= keys then 1 else 0
      {
        BelowOneMore(old(routes).Keys, keys, p);
        assert routes.Keys == old(routes).Keys + {keys};
      }
    }

    /** The round for `keys[i]`, seen from the lines that registration began with. */
    method Advance(ghost lines: map<Path, Line>, ghost keys: Path, ghost i: nat, current: Node, key: string)
      returns (child: Node?)
      requires i < |keys| && keys[i] == key && (key == "" || IsKey(key))
      requires Valid() && OnTheWay(keys[..i]) && keys[..i] in at && at[keys[..i]] == current
      requires Follows(lines, Lines(), keys, i)
      modifies `at, Nodes()
      ensures child == null <==> StuckAt(lines, keys, i)
      ensures child == null ==> keys !in routes
      ensures child != null ==>
        && Valid() && OnTheWay(keys[..i + 1]) && keys[..i + 1] in at && at[keys[..i + 1]] == child
        && Follows(lines, Lines(), keys, i + 1)
      ensures child != null && old(Counted(keys[..i])) ==> Counted(keys[..i + 1])
      ensures old(at).Keys <= at.Keys && forall p :: p in old(at) ==> at[p] == old(at)[p]
      ensures forall p :: p in at && p !in old(at) ==> fresh(at[p])
      ensures keys in routes ==> at == old(at)
    {
      hide Valid, OnTheWay, Counted, Extends, Line.NoPlace, StuckAt, Follows;
      ghost var now := Lines();
      RouteIsThere(keys, i + 1);
      StuckHere(lines, now, keys, i);
      assert keys[..i + 1] == keys[..i] + [key];
      child := Visit(keys[..i], current, key);
      if child != null {
        FollowsOn(lines, now, Lines(), keys, i);
      }
    }

    /** Registration of one route (router.go:170-219), up to a panic. */
    method Add(segments: seq<Segment>, fullPath: string, handler: Handler) returns (r: AddResult)
      requires Valid() && Tight() && forall key :: key in Keys(segments) ==> key == "" || IsKey(key)
      modifies `at, `routes, Nodes()
      ensures r != PanicFrozen && (r != PanicIndices ==> Valid() && Tight())
      ensures r == PanicDuplicate <==> Keys(segments) in old(routes)
      ensures r == PanicIndices <==> Stuck(old(Lines()), Keys(segments))
      ensures r == Added ==> routes == old(routes)[Keys(segments) := Route(handler, Names(segments), fullPath)]
      ensures r != Added ==> routes == old(routes)
      ensures r == PanicDuplicate ==> at == old(at)
      ensures r == Added && old(Prioritized()) ==> Prioritized()
      ensures forall p :: p in old(at) ==> p in at && at[p] == old(at)[p]
      ensures forall p :: p in at && p !in old(at) ==> fresh(at[p])
    {
      hide Valid, OnTheWay, Counted, Tight, Prioritized, Names, Extends, Line.NoPlace, StuckAt, Follows;
      ghost var keys, lines := Keys(segments), Lines();
      RootIsNamed();
      var current := CountAtRoot();
      var paramKeys: seq<string> := [];
      assert keys[..0] == [];
      StartFollows(keys);
      NamesOfNothing();
      for i := 0 to |segments|
        invariant Valid() && OnTheWay(keys[..i]) && keys[..i] in at && at[keys[..i]] == current
        invariant paramKeys == Names(segments[..i])
        invariant old(Prioritized()) ==> Counted(keys[..i])
        invariant forall p :: p in old(at) ==> p in at && at[p] == old(at)[p]
        invariant forall p :: p in at && p !in old(at) ==> fresh(at[p])
        invariant routes == old(routes) && (keys in routes ==> at == old(at))
        invariant Follows(lines, Lines(), keys, i)
        invariant forall n :: 0 <= n < i ==> !StuckAt(lines, keys, n)
      {
        var seg := segments[i];
        var segValue := seg.raw;
        if seg.isParam {
          segValue := ":";
          paramKeys := paramKeys + [seg.paramName];
        } else if seg.isWild {
          segValue := "*";
          paramKeys := paramKeys + [seg.paramName];
        }
        NamesOneMore(segments, i);
        assert keys[i] in keys && keys[i] == segValue;
        var child := Advance(lines, keys, i, current, segValue);
        if child == null {
          return PanicIndices;
        }
        current := child;
      }
      assert keys[..|segments|] == keys && segments[..|segments|] == segments;
      HandlerTells(keys);
      if current.handler.Some? {
        return PanicDuplicate;
      }
      Register(keys, current, handler, paramKeys, fullPath);
      return Added;
    }

    /** The root counts every route, even one that turns out to be a duplicate. */
    method CountAtRoot() returns (current: Node)
      requires Valid() && Tight()
      modifies root`priority
      ensures Valid() && OnTheWay([]) && [] in at && at[[]] == root == current
      ensures old(Prioritized()) ==> Counted([])
    {
      hide NodeAt, Extends, Below;
      root.priority := root.priority + 1;
      current := root;
      forall p | p in at
        ensures old(Prioritized()) ==> at[p].priority == |Below(routes.Keys, p)| + if p <= [] then 1 else 0
      {
        assert p <= [] <==> p == [];
        DistinctNodes(p, []);
      }
    }

    lemma HandlerTells(p: Path)
      requires Valid() && p in at
      ensures at[p].handler.Some? <==> p in routes
    {
      assert NodeAt(p);
    }

    lemma StartFollows(keys: Path)
      requires Valid()
      ensures Follows(Lines(), Lines(), keys, 0)
    {
      hide NodeAt;
      forall m, n | 0 <= m <= n <= |keys| && keys[..n] in at
        ensures keys[..m] in at
      {
        assert keys[..n][..m] == keys[..m];
      }
    }

    // ---------- matching ----------

    static method FindChildForPath(parent: Node, path: string) returns (child: Node?)
      ensures child == null ==> forall c :: c in parent.children ==> c.path != path
      ensures child != null ==> child in parent.children && child.path == path
    {
      for i := 0 to |parent.children|
        invariant forall j :: 0 <= j < i ==> parent.children[j].path != path
      {
        if parent.children[i].path == path {
          return parent.children[i];
        }
      }
      return null;
    }

    /** `findParamChild` and `findWildChild`: the first child whose path starts with `first`. */
    static method FindChildByFirst(parent: Node, first: char) returns (child: Node?)
      ensures child == null ==> forall c :: c in parent.children ==> c.path == "" || c.path[0] != first
      ensures child != null ==> child in parent.children && child.path != "" && child.path[0] == first
    {
      for i := 0 to |parent.children|
        invariant forall j :: 0 <= j < i ==> parent.children[j].path == "" || parent.children[j].path[0] != first
      {
        var c := parent.children[i];
        if |c.path| > 0 && c.path[0] == first {
          return c;
        }
      }
      return null;
    }

    /** The node at `p` has a child labelled `s` exactly if some template goes on that way. */
    lemma ChildMeansExtends(p: Path, s: string)
      requires Valid() && Tight() && p in at
      ensures Extends(routes.Keys, p + [s]) <==> p + [s] in at
      ensures Extends(routes.Keys, p + [s]) <==> exists c :: c in at[p].children && c.path == s
      ensures forall c :: c in at[p].children && c.path == s ==> at[p + [s]] == c
      ensures forall c :: c in at[p].children ==> IsKey(c.path)
    {
      assert NodeAt(p);
      NodesArePrefixes(p + [s]);
      forall c | c in at[p].children
        ensures IsKey(c.path)
      {
        assert (p + [c.path])[|p|] == c.path;
      }
      if p + [s] in at {
        assert at[p + [s]] in at[p].children && at[p + [s]].path == s;
      }
    }

    method MatchRoute(parts: seq<string>) returns (handler: Option<Handler>, values: seq<string>, keys: seq<string>)
      requires Valid() && Tight()
      ensures var m := Greedy(routes.Keys, [], parts);
        if m.Match? && m.template in routes then
          handler == Some(routes[m.template].handler) && values == m.values && keys == routes[m.template].paramKeys
        else handler == None && keys == []
    {
      hide Named, NodeAt, Greedy, Join, Extends;
      var current := root;
      values := [];
      ghost var p: Path := [];
      RootIsNamed();
      for i := 0 to |parts|
        invariant Valid() && p in at && at[p] == current
        invariant Greedy(routes.Keys, [], parts) == WithValues(values, Greedy(routes.Keys, p, parts[i..]))
      {
        var part := parts[i];
        GreedyStep(routes.Keys, p, parts[i..]);
        assert parts[i..][0] == part && parts[i..][1..] == parts[i + 1..];
        ChildMeansExtends(p, part);
        ChildMeansExtends(p, ":");
        ChildMeansExtends(p, "*");
        var child := FindChildForPath(current, part);
        if child != null {
          current, p := child, p + [part];
          continue;
        }
        var paramChild := FindChildByFirst(current, ':');
        if paramChild != null {
          values := values + [part];
          current, p := paramChild, p + [":"];
          continue;
        }
        var wildChild := FindChildByFirst(current, '*');
        if wildChild != null {
          values := values + [Join(parts[i..])];
          current, p := wildChild, p + ["*"];
          LabelTells(p);
          return current.handler, values, current.paramKeys;
        }
        return None, [], [];
      }
      GreedyStep(routes.Keys, p, parts[|parts|..]);
      LabelTells(p);
      return current.handler, values, current.paramKeys;
    }

    method RootHandler() returns (h: Option<Handler>)
      requires Valid()
      ensures h == if [] in routes then Some(routes[[]].handler) else None
    {
      assert NodeAt([]);
      return root.handler;
    }

    lemma RootIsNamed()
      requires Valid()
      ensures [] in at && at[[]] == root && root in Nodes()
    {
    }

    lemma RouteIsThere(keys: Path, n: nat)
      requires Valid() && n <= |keys|
      ensures keys in routes ==> keys[..n] in at
    {
    }

    lemma LabelTells(p: Path)
      requires Valid() && p in at
      ensures if p in routes then at[p].handler == Some(routes[p].handler) && at[p].paramKeys == routes[p].paramKeys
              else at[p].handler == None && at[p].paramKeys == []
    {
      assert NodeAt(p);
    }
  }

  /** What has become of the lines when registration has come to `keys[..i]`: nothing, or the last node is new. */
  ghost predicate Follows(lines: map<Path, Line>, now: map<Path, Line>, keys: Path, i: nat) {
    && i <= |keys| && keys[..i] in now && lines.Keys <= now.Keys
    && (forall p :: p in now ==> p in lines || p <= keys[..i])
    && (if keys[..i] in lines then now == lines else now[keys[..i]] == NOBODY)
    && forall m, n :: 0 <= m <= n <= |keys| && keys[..n] in lines ==> keys[..m] in lines
  }

  lemma StuckHere(lines: map<Path, Line>, now: map<Path, Line>, keys: Path, i: nat)
    requires i < |keys| && Follows(lines, now, keys, i)
    ensures keys[..i] in now && (StuckAt(lines, keys, i) <==> keys[..i + 1] !in now && now[keys[..i]].NoPlace(keys[i]))
  {
    hide Line.NoPlace;
    assert !(keys[..i + 1] <= keys[..i]);
  }

  lemma FollowsOn(lines: map<Path, Line>, now: map<Path, Line>, later: map<Path, Line>, keys: Path, i: nat)
    requires i < |keys| && Follows(lines, now, keys, i)
    requires keys[..i + 1] in now ==> later == now
    requires keys[..i + 1] !in now ==>
      later.Keys == now.Keys + {keys[..i + 1]} && later[keys[..i + 1]] == NOBODY
    ensures Follows(lines, later, keys, i + 1)
  {
    assert !(keys[..i + 1] <= keys[..i]);
    forall p | p in later
      ensures p in lines || p <= keys[..i + 1]
    {
      assert p <= keys[..i] ==> p <= keys[..i + 1];
    }
  }

  lemma PlaceMeansKey(line: Line, key: string)
    ensures !line.NoPlace(key) ==> key != ""
  {
  }

  lemma PlaceOfNobody(key: string)
    ensures NOBODY.NoPlace(key) <==> key == ""
  {
  }

  lemma ExtensionIsUtf8(templates: set<Path>, p: Path, s: string)
    requires Extends(templates, p + [s]) && s != "" && forall t :: t in templates ==> IsUtf8(t)
    ensures Leads(s[0])
  {
    var t :| t in templates && p + [s] <= t;
    assert t[|p|] == (p + [s])[|p|] == s;
  }

  function WithValues(vs: seq<string>, m: Match): Match {
    if m.NoMatch? then m else Match(m.template, vs + m.values)
  }

  lemma BelowOneMore(templates: set<Path>, t: Path, p: Path)
    ensures Extends(templates + {t}, p) <==> Extends(templates, p) || p <= t
    ensures t !in templates ==> |Below(templates + {t}, p)| == |Below(templates, p)| + if p <= t then 1 else 0
  {
    assert Below(templates + {t}, p) == Below(templates, p) + if p <= t then {t} else {};
    assert Extends(templates, p) ==> Extends(templates + {t}, p);
    if p <= t {
      assert t in templates + {t};
    }
  }

  lemma PrefixOfSnoc(q: Path, p: Path, s: string)
    ensures q <= p + [s] <==> q <= p || q == p + [s]
  {
    assert |q| <= |p| ==> (p + [s])[..|q|] == p[..|q|];
  }
}
