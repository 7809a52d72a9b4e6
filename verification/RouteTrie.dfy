/**
 The mutable trie of the gateway's route map: nodes linked through a map of
 literal children and one parameter child, built in place, searched by
 backtracking, and swapped as a whole.

 A ghost map from shapes to nodes says how the nodes are linked; each node
 then holds the cell that the index (RouteIndex) has for its shape.
 */
module RouteTrie {
  import opened Wrappers
  import opened Paths
  import opened RouteSpec
  import opened RouteIndex

  class RouteNode {
    var children: map<string, RouteNode>
    var paramChild: RouteNode?
    var paramName: string
    var entries: map<string, Entry>

    constructor ()
      ensures children == map[] && paramChild == null && paramName == "" && entries == map[]
    {
      children, paramChild, paramName, entries := map[], null, "", map[];
    }
  }

  type Nodes = map<Shape, RouteNode>

  /** What a node shows at one moment. */
  datatype Look = Look(children: map<string, RouteNode>, paramChild: RouteNode?, cell: Cell)

  function LookAt(n: RouteNode): Look
    reads n
  {
    Look(n.children, n.paramChild, Cell(n.paramName, n.entries))
  }

  /** A node that shows look, at shape s, links to exactly the nodes one key below it. */
  ghost predicate Linked(nodes: Nodes, s: Shape, look: Look) {
    && (forall seg :: seg in look.children <==> Extend(s, Static(seg)) in nodes)
    && (forall seg :: seg in look.children ==> look.children[seg] == nodes[Extend(s, Static(seg))])
    && (look.paramChild == null <==> Extend(s, Param) !in nodes)
    && (look.paramChild != null ==> look.paramChild == nodes[Extend(s, Param)])
  }

  /** Different shapes have different nodes, all owned, and every node has its parent. */
  ghost predicate Rooted(nodes: Nodes, repr: set<RouteNode>) {
    && (forall s :: s in nodes ==> nodes[s] in repr)
    && (forall s, t :: s in nodes && t in nodes && s != t ==> nodes[s] != nodes[t])
    && (forall s, k :: Extend(s, k) in nodes ==> s in nodes)
  }

  /** A node that shows look is the index's node of shape s. */
  ghost predicate Mirrors(nodes: Nodes, ix: Index, s: Shape, look: Look) {
    Linked(nodes, s, look) && s in ix && look.cell == ix[s]
  }

  /** The heap holds the index: one node per shape, linked, with the same contents. */
  ghost predicate Holds(nodes: Nodes, repr: set<RouteNode>, ix: Index)
    reads repr
  {
    && Rooted(nodes, repr)
    && (forall s :: s in nodes <==> s in ix)
    && (forall s {:trigger Mirrors(nodes, ix, s, LookAt(nodes[s]))} ::
          s in nodes ==> Mirrors(nodes, ix, s, LookAt(nodes[s])))
  }

  /** root is the node of the empty shape. */
  ghost predicate TrieAt(root: RouteNode, nodes: Nodes, repr: set<RouteNode>, ix: Index)
    reads repr
  {
    [] in nodes && nodes[[]] == root && Holds(nodes, repr, ix)
  }

  // ---- One link at a time ----

  lemma ExtendInjective(s: Shape, k: Key, t: Shape, l: Key)
    ensures Extend(s, k) == Extend(t, l) ==> s == t && k == l
    ensures Extend(s, k) != s
  {
    if Extend(s, k) == Extend(t, l) {
      assert s == Extend(s, k)[..|s|] == Extend(t, l)[..|t|] == t;
      assert Extend(s, k)[|s|] == k && Extend(t, l)[|t|] == l;
    }
    assert |Extend(s, k)| == |s| + 1;
  }

  /** What the parent shows once it links to a new child for key k. */
  function LinkTo(look: Look, k: Key, child: RouteNode): Look {
    match k
    case Param => look.(paramChild := child)
    case Static(seg) => look.(children := look.children[seg := child])
  }

  lemma LinkedAfter(nodes: Nodes, at: Shape, k: Key, created: RouteNode, t: Shape, look: Look)
    requires Extend(at, k) !in nodes
    requires t in nodes && Linked(nodes, t, look)
    ensures Linked(nodes[Extend(at, k) := created], t, if t == at then LinkTo(look, k, created) else look)
  {
    forall l: Key
      ensures Extend(t, l) == Extend(at, k) <==> t == at && l == k
    {
      ExtendInjective(t, l, at, k);
    }
  }

  lemma LinkedCreated(nodes: Nodes, repr: set<RouteNode>, at: Shape, k: Key, created: RouteNode, look: Look)
    requires Rooted(nodes, repr) && Extend(at, k) !in nodes
    requires look.children == map[] && look.paramChild == null
    ensures Linked(nodes[Extend(at, k) := created], Extend(at, k), look)
  {
    var s := Extend(at, k);
    forall l: Key
      ensures Extend(s, l) !in nodes[s := created]
    {
      ExtendInjective(s, l, at, k);
    }
  }

  lemma RootedAfter(nodes: Nodes, repr: set<RouteNode>, at: Shape, k: Key, created: RouteNode)
    requires Rooted(nodes, repr) && at in nodes && created !in repr
    ensures Rooted(nodes[Extend(at, k) := created], repr + {created})
  {
    forall t, l | Extend(t, l) == Extend(at, k)
      ensures t == at
    {
      ExtendInjective(t, l, at, k);
    }
  }

  /** After one link, every node mirrors the touched index. */
  lemma MirrorsAfter(nodes: Nodes, repr: set<RouteNode>, ix: Index, at: Shape, seg: string, created: RouteNode,
                     t: Shape, before: Look, look: Look)
    requires Rooted(nodes, repr) && at in nodes && Extend(at, KeyOf(seg)) !in nodes
    requires Extend(at, KeyOf(seg)) !in ix
    requires if t == Extend(at, KeyOf(seg)) then look == Look(map[], null, Cell(NameOf(seg), map[]))
             else && t in nodes && Mirrors(nodes, ix, t, before)
                  && look == if t == at then LinkTo(before, KeyOf(seg), created) else before
    ensures Mirrors(nodes[Extend(at, KeyOf(seg)) := created], Touch(ix, at, seg), t, look)
  {
    var s := Extend(at, KeyOf(seg));
    if t == s {
      LinkedCreated(nodes, repr, at, KeyOf(seg), created, look);
    } else {
      LinkedAfter(nodes, at, KeyOf(seg), created, t, before);
      assert look.cell == before.cell;
    }
    hide Linked;
    hide Extend;
    hide Rooted;
  }

  lemma OthersDiffer(nodes: Nodes, repr: set<RouteNode>, s: Shape)
    requires Rooted(nodes, repr) && s in nodes
    ensures forall t :: t in nodes ==> nodes[t] in repr && (t != s ==> nodes[t] != nodes[s])
  {
  }

  /** A new node for seg, linked below node under its key. */
  method NewChild(node: RouteNode, seg: string) returns (child: RouteNode)
    modifies node
    ensures fresh(child) && LookAt(child) == Look(map[], null, Cell(NameOf(seg), map[]))
    ensures LookAt(node) == LinkTo(old(LookAt(node)), KeyOf(seg), child)
  {
    child := new RouteNode();
    if IsParam(seg) {
      child.paramName := seg[1..];
      node.paramChild := child;
    } else {
      node.children := node.children[seg := child];
    }
  }

  /** Creates the child for seg below a node that has none. */
  method Grow(node: RouteNode, seg: string, ghost nodes: Nodes, ghost repr: set<RouteNode>, ghost ix: Index, ghost at: Shape)
    returns (child: RouteNode)
    requires Holds(nodes, repr, ix) && at in nodes && nodes[at] == node
    requires Extend(at, KeyOf(seg)) !in nodes
    modifies node
    ensures fresh(child)
    ensures Holds(nodes[Extend(at, KeyOf(seg)) := child], repr + {child}, Touch(ix, at, seg))
  {
    ghost var s := Extend(at, KeyOf(seg));
    ghost var looks := map t | t in nodes :: LookAt(nodes[t]);
    OthersDiffer(nodes, repr, at);
    assert forall t :: t in nodes ==> Mirrors(nodes, ix, t, looks[t]);
    assert s !in ix;
    hide *;
    child := NewChild(node, seg);
    GrowHolds(nodes, repr, looks, ix, at, seg, child);
  }

  lemma GrowHolds(nodes: Nodes, repr: set<RouteNode>, looks: map<Shape, Look>, ix: Index,
                  at: Shape, seg: string, child: RouteNode)
    requires Rooted(nodes, repr) && at in nodes && child !in repr && looks.Keys == nodes.Keys
    requires Extend(at, KeyOf(seg)) !in nodes && forall t :: t in nodes <==> t in ix
    requires forall t :: t in nodes ==> Mirrors(nodes, ix, t, looks[t])
    requires forall t :: t in nodes && t != at ==> LookAt(nodes[t]) == looks[t]
    requires LookAt(nodes[at]) == LinkTo(looks[at], KeyOf(seg), child)
    requires LookAt(child) == Look(map[], null, Cell(NameOf(seg), map[]))
    ensures Holds(nodes[Extend(at, KeyOf(seg)) := child], repr + {child}, Touch(ix, at, seg))
  {
    hide Rooted;
    hide Mirrors;
    hide Extend;
    hide LookAt;
    hide LinkTo;
    hide KeyOf;
    hide NameOf;
    var s := Extend(at, KeyOf(seg));
    var after := nodes[s := child];
    RootedAfter(nodes, repr, at, KeyOf(seg), child);
    forall t | t in after
      ensures Mirrors(after, Touch(ix, at, seg), t, LookAt(after[t]))
    {
      MirrorsAfter(nodes, repr, ix, at, seg, child, t, if t == s then LookAt(child) else looks[t], LookAt(after[t]));
    }
  }

  /** What a held index says about one node. */
  lemma HeldNode(nodes: Nodes, repr: set<RouteNode>, ix: Index, s: Shape)
    requires Holds(nodes, repr, ix) && s in nodes
    ensures s in ix && nodes[s] in repr
    ensures Linked(nodes, s, LookAt(nodes[s])) && LookAt(nodes[s]).cell == ix[s]
    ensures forall t :: t in nodes <==> t in ix
  {
    assert Mirrors(nodes, ix, s, LookAt(nodes[s]));
  }

  /** One step down while inserting: the child for seg, created when missing. */
  method Descend(node: RouteNode, seg: string, ghost nodes: Nodes, ghost repr: set<RouteNode>, ghost ix: Index, ghost at: Shape)
    returns (child: RouteNode, ghost after: Nodes, ghost owned: set<RouteNode>)
    requires Holds(nodes, repr, ix) && at in nodes && nodes[at] == node
    modifies node
    ensures Holds(after, owned, Touch(ix, at, seg))
    ensures Extend(at, KeyOf(seg)) in after && after[Extend(at, KeyOf(seg))] == child
    ensures [] in nodes ==> [] in after && after[[]] == nodes[[]]
    ensures repr <= owned && fresh(owned - repr)
  {
    ghost var s := Extend(at, KeyOf(seg));
    after, owned := nodes, repr;
    HeldNode(nodes, repr, ix, at);
    assert s != [];
    hide Extend;
    hide Holds;
    if IsParam(seg) {
      if node.paramChild == null {
        child := Grow(node, seg, nodes, repr, ix, at);
        after, owned := nodes[s := child], repr + {child};
      } else {
        child := node.paramChild;
      }
    } else {
      if seg !in node.children {
        child := Grow(node, seg, nodes, repr, ix, at);
        after, owned := nodes[s := child], repr + {child};
      } else {
        child := node.children[seg];
      }
    }
  }

  // ---- Building the trie ----

  method StoreEntry(node: RouteNode, verb: string, e: Entry,
                    ghost nodes: Nodes, ghost repr: set<RouteNode>, ghost ix: Index, ghost s: Shape)
    requires Holds(nodes, repr, ix) && s in nodes && nodes[s] == node
    modifies node
    ensures s in ix && Holds(nodes, repr, Store(ix, s, verb, e))
  {
    ghost var looks := map t | t in nodes :: LookAt(nodes[t]);
    OthersDiffer(nodes, repr, s);
    assert forall t :: t in nodes ==> Mirrors(nodes, ix, t, looks[t]);
    assert s in ix;
    node.entries := node.entries[verb := e];
    StoreHolds(nodes, repr, looks, ix, s, verb, e);
  }

  /** What the node shows once it stores a route. */
  function StoreIn(look: Look, verb: string, e: Entry): Look {
    look.(cell := look.cell.(entries := look.cell.entries[verb := e]))
  }

  lemma StoreHolds(nodes: Nodes, repr: set<RouteNode>, looks: map<Shape, Look>, ix: Index, s: Shape, verb: string, e: Entry)
    requires Rooted(nodes, repr) && s in nodes && looks.Keys == nodes.Keys
    requires forall t :: t in nodes <==> t in ix
    requires forall t :: t in nodes ==> Mirrors(nodes, ix, t, looks[t])
    requires forall t :: t in nodes ==> LookAt(nodes[t]) == if t == s then StoreIn(looks[s], verb, e) else looks[t]
    ensures Holds(nodes, repr, Store(ix, s, verb, e))
  {
    hide Linked;
    hide Rooted;
    hide LookAt;
    forall t | t in nodes
      ensures Mirrors(nodes, Store(ix, s, verb, e), t, LookAt(nodes[t]))
    {
      LinkedIgnoresCell(nodes, t, looks[t], LookAt(nodes[t]));
    }
  }

  lemma LinkedIgnoresCell(nodes: Nodes, t: Shape, a: Look, b: Look)
    requires Linked(nodes, t, a) && a.children == b.children && a.paramChild == b.paramChild
    ensures Linked(nodes, t, b)
  {
  }

  /** Walks one route's segments from the root, creating what is missing, and stores the route. */
  method Insert(root: RouteNode, e: Entry, ghost nodes: Nodes, ghost repr: set<RouteNode>, ghost ix: Index)
    returns (ghost after: Nodes, ghost owned: set<RouteNode>)
    requires [] in ix && TrieAt(root, nodes, repr, ix)
    modifies repr
    ensures TrieAt(root, after, owned, InsertEntry(ix, e))
    ensures repr <= owned && fresh(owned - repr)
  {
    hide Holds;
    hide Extend;
    hide KeyOf;
    hide Touch;
    hide Upper;
    var node := root;
    var segs := SplitPath(e.path);
    after, owned := nodes, repr;
    for i := 0 to |segs|
      invariant Holds(after, owned, TouchPath(ix, segs[..i]))
      invariant ShapeOf(segs[..i]) in after && after[ShapeOf(segs[..i])] == node
      invariant [] in after && after[[]] == root
      invariant repr <= owned && fresh(owned - repr)
    {
      TouchPathStep(ix, segs, i);
      ShapeOfPrefix(segs, i);
      hide TouchPath;
      hide ShapeOf;
      HeldNode(after, owned, TouchPath(ix, segs[..i]), ShapeOf(segs[..i]));
      node, after, owned := Descend(node, segs[i], after, owned, TouchPath(ix, segs[..i]), ShapeOf(segs[..i]));
    }
    assert segs[..|segs|] == segs;
    HeldNode(after, owned, TouchPath(ix, segs), ShapeOf(segs));
    StoreEntry(node, Upper(e.verb), e, after, owned, TouchPath(ix, segs), ShapeOf(segs));
  }

  lemma TouchPathStep(ix: Index, segs: seq<string>, i: nat)
    requires i < |segs|
    ensures TouchPath(ix, segs[..i + 1]) == Touch(TouchPath(ix, segs[..i]), ShapeOf(segs[..i]), segs[i])
  {
    assert segs[..i + 1][..i] == segs[..i];
  }

  lemma EmptyTrie(root: RouteNode)
    requires LookAt(root) == Look(map[], null, Cell("", map[]))
    ensures TrieAt(root, map[[] := root], {root}, EmptyIndex())
  {
    forall s: Shape, k: Key
      ensures Extend(s, k) != []
    {
      assert |Extend(s, k)| > 0;
    }
  }

  /** buildTrie: a fresh trie that holds the index of the routes. */
  method BuildTrie(routes: seq<Entry>) returns (root: RouteNode, ghost nodes: Nodes, ghost repr: set<RouteNode>)
    ensures TrieAt(root, nodes, repr, BuildIndex(routes))
    ensures fresh(repr)
  {
    root := new RouteNode();
    nodes, repr := map[[] := root], {root};
    EmptyTrie(root);
    hide TrieAt;
    hide InsertEntry;
    for i := 0 to |routes|
      invariant TrieAt(root, nodes, repr, BuildIndex(routes[..i]))
      invariant fresh(repr)
    {
      assert routes[..i + 1][..i] == routes[..i];
      nodes, repr := Insert(root, routes[i], nodes, repr, BuildIndex(routes[..i]));
    }
    assert routes[..|routes|] == routes;
  }

  // ---- Searching the trie ----

  method CopyParams(src: Option<Params>) returns (dst: Params)
    ensures dst == if src.Some? then src.value else map[]
  {
    dst := if src.Some? then src.value else map[];
  }

  /** traverse: literal child first, then the parameter child with its own copy of the parameters. */
  method Traverse(node: RouteNode, segs: seq<string>, params: Option<Params>,
                  ghost nodes: Nodes, ghost repr: set<RouteNode>, ghost ix: Index, ghost at: Shape)
    returns (found: RouteNode?, captured: Option<Params>)
    requires Holds(nodes, repr, ix) && at in nodes && nodes[at] == node
    ensures match Walk(ix, at, segs, params)
            case None => found == null && captured == None
            case Some(w) => w.shape in nodes && found == nodes[w.shape] && captured == w.params
    decreases |segs|
  {
    if |segs| == 0 {
      return node, params;
    }
    var seg, rest := segs[0], segs[1..];
    ghost var literal, param := Extend(at, Static(seg)), Extend(at, Param);
    HeldNode(nodes, repr, ix, at);
    hide Holds;
    hide Extend;
    if seg in node.children {
      found, captured := Traverse(node.children[seg], rest, params, nodes, repr, ix, literal);
      if found != null {
        return;
      }
    }
    if node.paramChild != null {
      var local := CopyParams(params);
      local := local[node.paramChild.paramName := seg];
      HeldNode(nodes, repr, ix, param);
      assert Some(local) == Bind(params, ix[param].name, seg);
      found, captured := Traverse(node.paramChild, rest, Some(local), nodes, repr, ix, param);
      if found != null {
        return;
      }
    }
    found, captured := null, None;
  }

  /** The request path below a loaded root pointer. */
  method LookupIn(root: RouteNode, verb: string, path: string,
                  ghost nodes: Nodes, ghost repr: set<RouteNode>, ghost routes: seq<Entry>)
    returns (r: Option<LookupResult>)
    requires TrieAt(root, nodes, repr, BuildIndex(routes))
    ensures Answers(routes, verb, path, r)
  {
    hide Holds;
    hide Answers;
    hide Faithful;
    ghost var ix := BuildIndex(routes);
    BuildIndexFaithful(routes);
    LookUpAnswers(ix, routes, verb, path);
    var segs := SplitPath(path);
    var node, params := Traverse(root, segs, None, nodes, repr, ix, []);
    if node == null {
      return None;
    }
    HeldNode(nodes, repr, ix, Walk(ix, [], segs, None).value.shape);
    if Upper(verb) !in node.entries {
      return None;
    }
    r := Some(LookupResult(node.entries[Upper(verb)], params));
  }

  /** The route map: a pointer to the current trie. */
  class RouteMap {
    var root: RouteNode?
    ghost var nodes: Nodes
    ghost var repr: set<RouteNode>
    ghost var routes: seq<Entry>

    ghost predicate Valid()
      reads this, repr
    {
      if root == null then routes == [] else TrieAt(root, nodes, repr, BuildIndex(routes))
    }

    constructor (entries: seq<Entry>)
      ensures Valid() && fresh(repr)
      ensures root != null && routes == entries
    {
      hide TrieAt;
      var built, all, owned := BuildTrie(entries);
      root, nodes, repr, routes := built, all, owned, entries;
    }

    /** The zero value, which has no trie yet. */
    constructor Zero()
      ensures Valid() && root == null
    {
      root, nodes, repr, routes := null, map[], {}, [];
    }

    /** Replaces the whole trie; the nodes of the previous one are left as they are. */
    method Swap(entries: seq<Entry>)
      modifies this
      ensures Valid() && fresh(repr)
      ensures root != null && routes == entries
    {
      hide TrieAt;
      root, nodes, repr := BuildTrie(entries);
      routes := entries;
    }

    /** Lookup answers what the flat list of routes answers. */
    method Lookup(verb: string, path: string) returns (r: Option<LookupResult>)
      requires Valid()
      ensures root == null ==> r == None
      ensures Answers(routes, verb, path, r)
    {
      hide TrieAt;
      if root == null {
        return None;
      }
      hide Answers;
      r := LookupIn(root, verb, path, nodes, repr, routes);
    }

    /**
     A lookup that loads the pointer, loses the processor while the trie is
     swapped, and then goes on answers wholly from the routes it loaded; the
     next one answers wholly from the new ones.
     */
    method LookupAcrossSwap(verb: string, path: string, entries: seq<Entry>)
      returns (during: Option<LookupResult>, next: Option<LookupResult>)
      requires Valid() && root != null
      modifies this
      ensures Valid() && routes == entries
      ensures Answers(old(routes), verb, path, during)
      ensures Answers(entries, verb, path, next)
    {
      hide Answers;
      hide TrieAt;
      var loaded := root;
      ghost var loadedNodes, loadedRepr, loadedRoutes := nodes, repr, routes;
      Swap(entries);
      during := LookupIn(loaded, verb, path, loadedNodes, loadedRepr, loadedRoutes);
      next := Lookup(verb, path);
    }

    /** The handshake's cross-check: warns exactly of the capabilities that no registered route answers. */
    method UnregisteredCapabilities(capabilities: seq<(string, string)>) returns (warned: seq<(string, string)>)
      requires Valid()
      ensures root == null ==> forall c :: c in capabilities ==> c in warned
      ensures forall c :: c in warned ==> c in capabilities && Answers(routes, c.0, c.1, None)
      ensures forall c :: c in capabilities && c !in warned ==> exists f :: Answers(routes, c.0, c.1, Some(f))
      ensures forall i, c :: 0 <= i < |routes| && c in warned && c.1 == routes[i].path ==> Upper(c.0) != Upper(routes[i].verb)
    {
      hide Answers;
      hide TrieAt;
      warned := [];
      for i := 0 to |capabilities|
        invariant root == null ==> forall c :: c in capabilities[..i] ==> c in warned
        invariant forall c :: c in warned ==> c in capabilities[..i] && Answers(routes, c.0, c.1, None)
        invariant forall c :: c in capabilities[..i] && c !in warned ==> exists f :: Answers(routes, c.0, c.1, Some(f))
      {
        var c := capabilities[i];
        assert capabilities[..i + 1] == capabilities[..i] + [c];
        var r := Lookup(Upper(c.0), c.1);
        AnswersIgnoreCase(routes, c.0, c.1, r);
        if r.None? {
          warned := warned + [c];
        }
      }
      assert capabilities[..|capabilities|] == capabilities;
      forall i, c | 0 <= i < |routes| && c in warned && c.1 == routes[i].path
        ensures Upper(c.0) != Upper(routes[i].verb)
      {
        if Upper(c.0) == Upper(routes[i].verb) {
          OwnPatternAnswers(routes, i, c.0, None);
          assert false;
        }
      }
    }
  }
}
