/** Schemas that show where the reorganiser's guarantees end. */
module SchemaLimits {
  import opened Wrappers
  import opened Json
  import opened Inlining
  import opened LexicalScopes
  import opened FreshNames
  import opened Organising
  import opened OrganisingMeaning
  import opened OrganisedSchema
  import opened Tracing
  import opened Unfolding

  function RefMember(name: string): Member {
    Member("$ref", NLeaf(Text(REF_PREFIX + name)))
  }

  function RefNode(tag: nat, name: string): Node {
    NObj(tag, [RefMember(name)])
  }

  function RefValue(name: string): Value {
    Obj(map["$ref" := RefTo(name)])
  }

  lemma RefNodeRefers(name: string)
    ensures NodeRef([RefMember(name)]) == Some(name)
    ensures Get([RefMember(name)], "$defs").None?
  {
  }

  lemma WalkBareRef(nodes: set<Node>, tag: nat, name: string, scopes: seq<Scope>, wrap: bool, t: Tables)
    requires Closed(nodes) && RefNode(tag, name) in nodes && ScopesIn(scopes, nodes)
    requires Lookup(scopes, name).Some?
    ensures Lookup(scopes, name).value in nodes
    ensures var (final, t') := ResolveNamed(nodes, name, Lookup(scopes, name).value, scopes, t);
            Walk(nodes, RefNode(tag, name), scopes, wrap, t) == (RefValue(final), t')
  {
    RefNodeRefers(name);
    LookupIn(scopes, name, nodes);
    var node := RefNode(tag, name);
    EnterIn(scopes, node, nodes);
    assert node.members[1..] == [];
    assert WalkMembers(nodes, node.members, {"$ref", "$defs"}, scopes, t) == (map[], t);
    assert map[]["$ref" := RefTo(name)] == map["$ref" := RefTo(name)];
  }

  lemma WalkDanglingRef(nodes: set<Node>, tag: nat, name: string, scopes: seq<Scope>, wrap: bool, t: Tables)
    requires Closed(nodes) && RefNode(tag, name) in nodes && ScopesIn(scopes, nodes)
    requires Lookup(scopes, name).None?
    ensures Walk(nodes, RefNode(tag, name), scopes, wrap, t) == (RefValue(name), t)
  {
    RefNodeRefers(name);
    var node := RefNode(tag, name);
    EnterIn(scopes, node, nodes);
    assert node.members[1..] == [];
    assert WalkMembers(nodes, node.members, {"$ref", "$defs"}, scopes, t) == (map[], t);
  }

  /** An object with two members that are references, walked where both lead somewhere. */
  function Pair(tag: nat, p: Node, q: Node): Node {
    NObj(tag, [Member("p", p), Member("q", q)])
  }

  lemma PairHasNeither(tag: nat, p: Node, q: Node)
    ensures Get(Pair(tag, p, q).members, "$ref").None? && Get(Pair(tag, p, q).members, "$defs").None?
    ensures "p" !in {"$defs"} && "q" !in {"$defs"}
  {
    var members := Pair(tag, p, q).members;
    var rest := members[1..];
    assert "p"[0] != '$' && "q"[0] != '$' && "$ref"[0] == '$' && "$defs"[0] == '$';
    assert rest[0] == Member("q", q) && rest[1..] == [];
    assert Get(rest[1..], "$ref").None? && Get(rest[1..], "$defs").None?;
    assert Get(rest, "$ref").None? && Get(rest, "$defs").None?;
  }

  lemma WalkPair(nodes: set<Node>, tag: nat, p: Node, q: Node, scopes: seq<Scope>, t: Tables)
    requires Closed(nodes) && Pair(tag, p, q) in nodes && ScopesIn(scopes, nodes)
    ensures p in nodes && q in nodes
    ensures var (v, t') := Walk(nodes, p, scopes, true, t);
            var (w, t'') := Walk(nodes, q, scopes, true, t');
            Walk(nodes, Pair(tag, p, q), scopes, false, t) == (Obj(map["p" := v, "q" := w]), t'')
  {
    var node := Pair(tag, p, q);
    EnterIn(scopes, node, nodes);
    assert node.members[0].value == p && node.members[1].value == q;
    var (v, t') := Walk(nodes, p, scopes, true, t);
    var (w, t'') := Walk(nodes, q, scopes, true, t');
    var rest := node.members[1..];
    assert rest[0] == node.members[1] && rest[1..] == [];
    PairHasNeither(tag, p, q);
    assert WalkMembers(nodes, rest, {"$defs"}, scopes, t') == (map["q" := w], t'') by {
      assert WalkMembers(nodes, [], {"$defs"}, scopes, t'') == (map[], t'');
    }
    assert map["q" := w]["p" := v] == map["p" := v, "q" := w];
  }

  // Two definitions that refer to each other and to themselves in the same way.

  const FIRST := Pair(1, RefNode(2, "A"), RefNode(3, "B"))
  const SECOND := Pair(4, RefNode(5, "A"), RefNode(6, "B"))
  const TWINS := [Member("A", FIRST), Member("B", SECOND)]
  const CYCLIC := Rooted(7, TWINS, "A")

  lemma TwinsFound()
    ensures Lookup([TWINS], "A") == Some(FIRST) && Lookup([TWINS], "B") == Some(SECOND)
  {
    assert "A"[0] != "B"[0];
    assert TWINS[1..] == [Member("B", SECOND)];
    assert Get(TWINS[1..], "B") == Some(SECOND);
  }

  lemma WalkTwin(nodes: set<Node>, tag: nat, a: nat, b: nat, t: Tables)
    requires Closed(nodes) && ScopesIn([TWINS], nodes) && Pair(tag, RefNode(a, "A"), RefNode(b, "B")) in nodes
    requires FIRST in t.open && SECOND in t.open
    ensures Walk(nodes, Pair(tag, RefNode(a, "A"), RefNode(b, "B")), [TWINS], false, t)
            == (Obj(map["p" := RefValue(t.open[FIRST]), "q" := RefValue(t.open[SECOND])]), t)
  {
    TwinsFound();
    WalkPair(nodes, tag, RefNode(a, "A"), RefNode(b, "B"), [TWINS], t);
    WalkBareRef(nodes, a, "A", [TWINS], true, t);
    WalkBareRef(nodes, b, "B", [TWINS], true, t);
  }

  const TWIN_BODY := Obj(map["p" := RefValue("A"), "q" := RefValue("B")])

  /** The second twin is walked while a name is reserved for the first. */
  lemma ResolveSecond(nodes: set<Node>)
    requires Closed(nodes) && ScopesIn([TWINS], nodes) && FIRST in nodes && SECOND in nodes
    ensures ResolveNamed(nodes, "B", SECOND, [TWINS], Reserve("A", FIRST, NO_TABLES))
            == ("B", AFTER_SECOND)
  {
    var t := Reserve("A", FIRST, NO_TABLES);
    assert "A"[0] != "B"[0];
    assert UniqueName("B", t.defs.Keys) == "B";
    var during := Reserve("B", SECOND, t);
    assert SECOND !in t.open;
    WalkTwin(nodes, 4, 5, 6, during);
    assert during.open[FIRST] == "A" && during.open[SECOND] == "B";
    var (final, t') := Settle("B", SECOND, TWIN_BODY, during);
    assert final == "B";
    assert t'.open == map[FIRST := "A"];
    assert t'.defs == map["A" := None, "B" := Some(TWIN_BODY)];
    assert t'.names == map[TWIN_BODY := "B"];
  }

  const AFTER_SECOND :=
    Tables(map["A" := None, "B" := Some(TWIN_BODY)], map[TWIN_BODY := "B"], map[FIRST := "A"])

  lemma WalkFirst(nodes: set<Node>)
    requires Closed(nodes) && ScopesIn([TWINS], nodes) && FIRST in nodes && SECOND in nodes
    ensures Walk(nodes, FIRST, [TWINS], false, Reserve("A", FIRST, NO_TABLES)) == (TWIN_BODY, AFTER_SECOND)
  {
    var t := Reserve("A", FIRST, NO_TABLES);
    TwinsFound();
    WalkPair(nodes, 1, RefNode(2, "A"), RefNode(3, "B"), [TWINS], t);
    WalkBareRef(nodes, 2, "A", [TWINS], true, t);
    WalkBareRef(nodes, 3, "B", [TWINS], true, t);
    ResolveSecond(nodes);
  }

  /** The first twin then turns out equal to the second, and its reserved name is withdrawn. */
  lemma ResolveFirst(nodes: set<Node>)
    requires Closed(nodes) && ScopesIn([TWINS], nodes) && FIRST in nodes && SECOND in nodes
    ensures ResolveNamed(nodes, "A", FIRST, [TWINS], NO_TABLES)
            == ("B", Tables(map["B" := Some(TWIN_BODY)], map[TWIN_BODY := "B"], map[]))
  {
    assert UniqueName("A", {}) == "A";
    WalkFirst(nodes);
    assert "A"[0] != "B"[0];
    assert AFTER_SECOND.defs - {"A"} == map["B" := Some(TWIN_BODY)];
    assert AFTER_SECOND.open - {FIRST} == map[];
  }

  /** A document that is a reference into its own definitions. */
  function Rooted(tag: nat, block: Scope, name: string): Node {
    NObj(tag, [Member("$defs", NObj(tag + 1, block)), RefMember(name)])
  }

  lemma WalkRooted(tag: nat, block: Scope, name: string)
    requires Lookup([block], name).Some?
    ensures NodesOf(Rooted(tag, block, name), block)
    ensures Lookup([block], name).value in Nodes(Rooted(tag, block, name))
    ensures var nodes, target := Nodes(Rooted(tag, block, name)), Lookup([block], name).value;
            var (final, t) := ResolveNamed(nodes, name, target, [block], NO_TABLES);
            Walked(Rooted(tag, block, name)) == (RefValue(final), t)
  {
    var node, skip := Rooted(tag, block, name), {"$ref", "$defs"};
    var nodes := Nodes(node);
    NodesClosed(node);
    EnterIn([], node, nodes);
    var rest := node.members[1..];
    assert rest == [RefMember(name)] && rest[1..] == [];
    RefNodeRefers(name);
    assert Enter([], node.members) == [block];
    LookupIn([block], name, nodes);
    assert NodeRef(node.members) == Some(name) by { assert Get(node.members, "$ref") == Get(rest, "$ref"); }
    assert WalkMembers(nodes, node.members, skip, [block], NO_TABLES) == (map[], NO_TABLES) by {
      assert WalkMembers(nodes, rest, skip, [block], NO_TABLES)
          == WalkMembers(nodes, rest[1..], skip, [block], NO_TABLES);
    }
    assert map[]["$ref" := RefTo(name)] == map["$ref" := RefTo(name)];
  }

  ghost predicate NodesOf(node: Node, block: Scope) {
    Closed(Nodes(node)) && ScopesIn([block], Nodes(node))
  }

  lemma CyclicWalked()
    ensures Walked(CYCLIC) == (RefValue("B"), Tables(map["B" := Some(TWIN_BODY)], map[TWIN_BODY := "B"], map[]))
  {
    hide Walk, ResolveNamed, Nodes;
    TwinsFound();
    WalkRooted(7, TWINS, "A");
    assert [TWINS][0] == TWINS && MembersIn(TWINS, Nodes(CYCLIC));
    assert TWINS[0] in TWINS && TWINS[1] in TWINS;
    ResolveFirst(Nodes(CYCLIC));
  }

  lemma CyclicTable()
    ensures RootDefs(Organised(CYCLIC)) == map["B" := TWIN_BODY]
  {
    hide Walk, ResolveNamed, Nodes;
    CyclicWalked();
    assert Written(Walked(CYCLIC).1) == map["B" := TWIN_BODY];
  }

  /**
    With circular references the result need not be closed: the definition that survives
    here still mentions the name that was withdrawn.
   */
  lemma CyclicIsNotClosed()
    ensures var r, trace := Organised(CYCLIC), SchemaTrace(CYCLIC);
            && RootDefs(r) == map["B" := TWIN_BODY]
            && "A" in Refs(RootDefs(r)["B"]) && trace == Trace({}, {"A"}, {})
    ensures SchemaMeaning(CYCLIC).None?
  {
    hide Organised, Refs, FieldRefs, RootDefs, SchemaTrace, SchemaMeaning;
    CyclicTable();
    CyclicTrace();
    TwinRefs();
    OrganisedMeans(CYCLIC);
  }

  /** Inside a twin both names are handed out. */
  lemma TraceTwin(nodes: set<Node>, tag: nat, a: nat, b: nat, t: Tables)
    requires Closed(nodes) && ScopesIn([TWINS], nodes) && Pair(tag, RefNode(a, "A"), RefNode(b, "B")) in nodes
    requires FIRST in t.open && SECOND in t.open
    ensures TraceWalk(nodes, Pair(tag, RefNode(a, "A"), RefNode(b, "B")), [TWINS], t)
            == Trace({t.open[FIRST], t.open[SECOND]}, {}, {})
  {
    TwinsFound();
    TracePair(nodes, tag, RefNode(a, "A"), RefNode(b, "B"), [TWINS], t);
    WalkBareRef(nodes, a, "A", [TWINS], true, t);
    TraceBareRef(nodes, a, "A", [TWINS], t);
    TraceBareRef(nodes, b, "B", [TWINS], t);
  }

  lemma TraceSecond(nodes: set<Node>)
    requires Closed(nodes) && ScopesIn([TWINS], nodes) && FIRST in nodes && SECOND in nodes
    ensures TraceResolve(nodes, "B", SECOND, [TWINS], Reserve("A", FIRST, NO_TABLES)) == Trace({"A"}, {}, {})
  {
    hide Walk, TraceWalk;
    var t := Reserve("A", FIRST, NO_TABLES);
    assert "A"[0] != "B"[0];
    assert UniqueName("B", t.defs.Keys) == "B";
    var during := Reserve("B", SECOND, t);
    assert SECOND !in t.open;
    WalkTwin(nodes, 4, 5, 6, during);
    TraceTwin(nodes, 4, 5, 6, during);
    assert during.open[FIRST] == "A" && during.open[SECOND] == "B";
    assert Settle("B", SECOND, TWIN_BODY, during).0 == "B";
    assert {"A", "B"} - {"B"} == {"A"};
  }

  lemma TraceFirst(nodes: set<Node>)
    requires Closed(nodes) && ScopesIn([TWINS], nodes) && FIRST in nodes && SECOND in nodes
    ensures TraceWalk(nodes, FIRST, [TWINS], Reserve("A", FIRST, NO_TABLES)) == Trace({"A"}, {}, {})
  {
    hide Walk, TraceResolve;
    var t := Reserve("A", FIRST, NO_TABLES);
    TwinsFound();
    TracePair(nodes, 1, RefNode(2, "A"), RefNode(3, "B"), [TWINS], t);
    WalkBareRef(nodes, 2, "A", [TWINS], true, t);
    TraceBareRef(nodes, 2, "A", [TWINS], t);
    TraceBareRef(nodes, 3, "B", [TWINS], t);
    TraceSecond(nodes);
    TraceInProgress(nodes, "A", FIRST, [TWINS], t);
  }

  lemma TraceInProgress(nodes: set<Node>, name: string, target: Node, scopes: seq<Scope>, t: Tables)
    requires Closed(nodes) && target in nodes && ScopesIn(scopes, nodes) && target in t.open
    ensures TraceResolve(nodes, name, target, scopes, t) == Trace({t.open[target]}, {}, {})
  {
  }

  /** The first twin's name is handed out, and withdrawn when the twin merges with the second. */
  lemma CyclicTrace()
    ensures SchemaTrace(CYCLIC) == Trace({}, {"A"}, {})
  {
    hide Walk, TraceWalk, Nodes;
    TwinsFound();
    TraceRooted(7, TWINS, "A");
    var nodes := Nodes(CYCLIC);
    assert [TWINS][0] == TWINS && MembersIn(TWINS, nodes);
    assert TWINS[0] in TWINS && TWINS[1] in TWINS;
    assert UniqueName("A", {}) == "A";
    WalkFirst(nodes);
    TraceFirst(nodes);
    assert "A"[0] != "B"[0];
    assert Settle("A", FIRST, TWIN_BODY, AFTER_SECOND).0 == "B";
  }

  lemma TwinRefs()
    ensures var defs := map["B" := TWIN_BODY]; "A" in Refs(defs["B"]) && "A" in FieldRefs(defs)
  {
    var defs := map["B" := TWIN_BODY];
    RefsOfBareRef("A");
    assert TWIN_BODY.fields["p"] == RefValue("A") && "A" in Refs(RefValue("A"));
    assert "p" in TWIN_BODY.fields;
    assert "B" in defs && "A" in Refs(defs["B"]);
  }

  lemma UnfoldBareRef(tag: nat, name: string, scopes: seq<Scope>, stack: seq<Frame>)
    requires Lookup(scopes, name).Some?
    ensures Unfold(0, RefNode(tag, name), scopes, stack, true) == ELIDED
  {
    RefNodeRefers(name);
    var node := RefNode(tag, name);
    assert node.members[1..] == [];
    assert UnfoldMembers(0, node.members, {"$ref", "$defs"}, scopes, stack) == map[];
  }

  lemma UnfoldPair(tag: nat, p: Node, q: Node, scopes: seq<Scope>, stack: seq<Frame>)
    ensures Unfold(0, Pair(tag, p, q), scopes, stack, false)
            == Obj(map["p" := Unfold(0, p, scopes, stack, true), "q" := Unfold(0, q, scopes, stack, true)])
  {
    var node, v, w := Pair(tag, p, q), Unfold(0, p, scopes, stack, true), Unfold(0, q, scopes, stack, true);
    var rest, none := node.members[1..], node.members[2..];
    assert rest[0] == Member("q", q) && rest[1..] == none == [];
    PairHasNeither(tag, p, q);
    assert UnfoldMembers(0, none, {"$defs"}, scopes, stack) == map[];
    assert UnfoldMembers(0, rest, {"$defs"}, scopes, stack) == map["q" := w];
    assert UnfoldMembers(0, node.members, {"$defs"}, scopes, stack) == map["q" := w]["p" := v];
    assert map["q" := w]["p" := v] == map["p" := v, "q" := w];
  }

  /** One step into the first twin both references are still there, elided. */
  lemma UnfoldFirst(stack: seq<Frame>)
    ensures Unfold(0, FIRST, [TWINS], stack, false) == Obj(map["p" := ELIDED, "q" := ELIDED])
  {
    hide Unfold;
    TwinsFound();
    UnfoldBareRef(2, "A", [TWINS], stack);
    UnfoldBareRef(3, "B", [TWINS], stack);
    UnfoldPair(1, RefNode(2, "A"), RefNode(3, "B"), [TWINS], stack);
  }

  lemma UnfoldCyclic()
    ensures UnfoldSchema(1, CYCLIC) == Obj(map["p" := ELIDED, "q" := ELIDED])
  {
    TwinsFound();
    var rest, skip := CYCLIC.members[1..], {"$ref", "$defs"};
    assert rest == [RefMember("A")] && rest[1..] == [];
    RefNodeRefers("A");
    assert Enter([], CYCLIC.members) == [TWINS];
    assert NodeRef(CYCLIC.members) == Some("A") by { assert Get(CYCLIC.members, "$ref") == Get(rest, "$ref"); }
    assert UnfoldMembers(1, CYCLIC.members, skip, [TWINS], []) == map[] by {
      assert UnfoldMembers(1, rest, skip, [TWINS], []) == UnfoldMembers(1, rest[1..], skip, [TWINS], []);
    }
    var into := Entered([], FIRST, [TWINS]);
    assert into == [Frame(FIRST, [TWINS])];
    UnfoldFirst(into);
    var fields: map<string, Value> := map["p" := ELIDED, "q" := ELIDED];
    assert fields + map[] == fields;
  }

  lemma UnfoldTwinBody()
    ensures var defs := map["B" := TWIN_BODY];
            UnfoldValue(0, TWIN_BODY, defs) == Obj(map["p" := RefValue("A"), "q" := ELIDED])
  {
    var defs, none: map<string, Value> := map["B" := TWIN_BODY], map[];
    assert "A"[0] != "B"[0];
    assert none["$ref" := RefTo("A")] == map["$ref" := RefTo("A")];
    UnfoldedRef(0, none, none, "A", defs);
    UnfoldedBareRef(0, "B", defs);
    UnfoldedPlain(0, TWIN_BODY.fields, map["p" := RefValue("A"), "q" := ELIDED], defs);
  }

  /** With a name withdrawn the result can unfold to something else: here one level down. */
  lemma CyclicUnfoldsDiffer()
    ensures UnfoldDocument(1, Organised(CYCLIC)) != UnfoldSchema(1, CYCLIC)
  {
    hide Walk, Unfold, UnfoldValue;
    UnfoldCyclic();
    CyclicTable();
    UnfoldTwinBody();
    var defs := map["B" := TWIN_BODY];
    UnfoldedBareRef(1, "B", defs);
    CyclicDocument(1);
    assert RefValue("A") != ELIDED;
    var a, b := map["p" := RefValue("A"), "q" := ELIDED], map["p" := ELIDED, "q" := ELIDED];
    assert a["p"] != b["p"];
  }

  lemma CyclicDocument(depth: nat)
    ensures UnfoldDocument(depth, Organised(CYCLIC)) == UnfoldValue(depth, RefValue("B"), map["B" := TWIN_BODY])
  {
    hide Walk, ResolveNamed, UnfoldValue, Nodes;
    CyclicTable();
    CyclicWalked();
    var (organised, t) := Walked(CYCLIC);
    WalkedRoot(CYCLIC);
    OrganisedParts(CYCLIC);
    AssembleUnfolds(depth, organised.fields, t);
  }

  // A definition that refers to itself.

  const BRANCHES := Pair(1, RefNode(2, "A"), RefNode(3, "A"))
  const TREE := [Member("A", BRANCHES)]
  const RECURSIVE := Rooted(4, TREE, "A")
  const TREE_BODY := Obj(map["p" := RefValue("A"), "q" := RefValue("A")])

  lemma TracePair(nodes: set<Node>, tag: nat, p: Node, q: Node, scopes: seq<Scope>, t: Tables)
    requires Closed(nodes) && Pair(tag, p, q) in nodes && ScopesIn(scopes, nodes)
    ensures p in nodes && q in nodes
    ensures var t' := Walk(nodes, p, scopes, true, t).1;
            TraceWalk(nodes, Pair(tag, p, q), scopes, t)
            == Both(TraceWalk(nodes, p, scopes, t), TraceWalk(nodes, q, scopes, t'))
  {
    var node := Pair(tag, p, q);
    EnterIn(scopes, node, nodes);
    var t' := Walk(nodes, p, scopes, true, t).1;
    assert node.members[0].value == p && node.members[1].value == q;
    var rest := node.members[1..];
    assert rest[0] == node.members[1] && rest[1..] == [];
    PairHasNeither(tag, p, q);
    assert TraceMembers(nodes, rest, {"$defs"}, scopes, t') == TraceWalk(nodes, q, scopes, t');
  }

  lemma TraceBareRef(nodes: set<Node>, tag: nat, name: string, scopes: seq<Scope>, t: Tables)
    requires Closed(nodes) && RefNode(tag, name) in nodes && ScopesIn(scopes, nodes)
    requires Lookup(scopes, name).Some?
    ensures Lookup(scopes, name).value in nodes
    ensures TraceWalk(nodes, RefNode(tag, name), scopes, t)
            == TraceResolve(nodes, name, Lookup(scopes, name).value, scopes, t)
  {
    RefNodeRefers(name);
    LookupIn(scopes, name, nodes);
    var node := RefNode(tag, name);
    EnterIn(scopes, node, nodes);
    assert node.members[1..] == [];
    assert WalkMembers(nodes, node.members, {"$ref", "$defs"}, scopes, t) == (map[], t);
    assert TraceMembers(nodes, node.members, {"$ref", "$defs"}, scopes, t) == NOTHING;
  }

  /** Inside the definition both branches are given the name reserved for it. */
  lemma WalkBranches(nodes: set<Node>)
    requires Closed(nodes) && ScopesIn([TREE], nodes) && BRANCHES in nodes
    ensures var during := Reserve("A", BRANCHES, NO_TABLES);
            && Walk(nodes, BRANCHES, [TREE], false, during) == (TREE_BODY, during)
            && TraceWalk(nodes, BRANCHES, [TREE], during) == Trace({"A"}, {}, {})
  {
    var during := Reserve("A", BRANCHES, NO_TABLES);
    assert Lookup([TREE], "A") == Some(BRANCHES);
    WalkPair(nodes, 1, RefNode(2, "A"), RefNode(3, "A"), [TREE], during);
    TracePair(nodes, 1, RefNode(2, "A"), RefNode(3, "A"), [TREE], during);
    WalkBareRef(nodes, 2, "A", [TREE], true, during);
    WalkBareRef(nodes, 3, "A", [TREE], true, during);
    TraceBareRef(nodes, 2, "A", [TREE], during);
    TraceBareRef(nodes, 3, "A", [TREE], during);
  }

  /** The definition keeps its name, so nothing is lost. */
  lemma ResolveBranches(nodes: set<Node>)
    requires Closed(nodes) && ScopesIn([TREE], nodes) && BRANCHES in nodes
    ensures TraceResolve(nodes, "A", BRANCHES, [TREE], NO_TABLES) == NOTHING
  {
    assert UniqueName("A", {}) == "A";
    WalkBranches(nodes);
  }

  /**
    A definition that refers to itself has no inlined form, yet the result is closed and unfolds
    to what the schema does.
   */
  lemma RecursiveIsClosed(depth: nat)
    ensures SchemaTrace(RECURSIVE) == NOTHING
    ensures var r := Organised(RECURSIVE);
            && r.Obj? && DocumentRefs(r) <= RootDefs(r).Keys
            && UnfoldDocument(depth, r) == UnfoldSchema(depth, RECURSIVE)
  {
    assert Lookup([TREE], "A") == Some(BRANCHES);
    TraceRooted(4, TREE, "A");
    ResolveBranches(Nodes(RECURSIVE));
    ClosedExactly(RECURSIVE);
    OrganisedUnfolds(RECURSIVE, depth);
  }

  lemma TraceRooted(tag: nat, block: Scope, name: string)
    requires Lookup([block], name).Some?
    ensures NodesOf(Rooted(tag, block, name), block)
    ensures Lookup([block], name).value in Nodes(Rooted(tag, block, name))
    ensures SchemaTrace(Rooted(tag, block, name))
            == TraceResolve(Nodes(Rooted(tag, block, name)), name, Lookup([block], name).value, [block], NO_TABLES)
  {
    var node, skip := Rooted(tag, block, name), {"$ref", "$defs"};
    var nodes := Nodes(node);
    NodesClosed(node);
    EnterIn([], node, nodes);
    var rest := node.members[1..];
    assert rest == [RefMember(name)] && rest[1..] == [];
    RefNodeRefers(name);
    assert Enter([], node.members) == [block];
    LookupIn([block], name, nodes);
    assert NodeRef(node.members) == Some(name) by { assert Get(node.members, "$ref") == Get(rest, "$ref"); }
    assert WalkMembers(nodes, node.members, skip, [block], NO_TABLES) == (map[], NO_TABLES) by {
      assert WalkMembers(nodes, rest, skip, [block], NO_TABLES)
          == WalkMembers(nodes, rest[1..], skip, [block], NO_TABLES);
    }
    assert TraceMembers(nodes, node.members, skip, [block], NO_TABLES) == NOTHING by {
      assert TraceMembers(nodes, rest, skip, [block], NO_TABLES)
          == TraceMembers(nodes, rest[1..], skip, [block], NO_TABLES);
    }
  }

  // A reference that leads nowhere beside an enumeration that is hoisted under its name.

  const ENUMERATION := NObj(3, [Member("title", NLeaf(Text("A"))), Member("enum", NArr(4, []))])
  const DANGLING := Pair(1, RefNode(2, "A"), ENUMERATION)
  const ENUM_BODY := Obj(map["title" := Leaf(Text("A")), "enum" := Arr([])])

  lemma WalkEnumeration(nodes: set<Node>)
    requires Closed(nodes) && ENUMERATION in nodes
    ensures Walk(nodes, ENUMERATION, [], true, NO_TABLES)
            == (RefValue("A"), Tables(map["A" := Some(ENUM_BODY)], map[ENUM_BODY := "A"], map[]))
  {
    EnterIn([], ENUMERATION, nodes);
    var members := ENUMERATION.members;
    var rest := members[1..];
    assert rest == [Member("enum", NArr(4, []))] && rest[1..] == [];
    assert Get(members, "$ref") == Get(rest, "$ref") == None && Get(members, "$defs") == Get(rest, "$defs") == None;
    assert rest[0].value in nodes && members[0].value in nodes;
    assert WalkMembers(nodes, rest[1..], {"$defs"}, [], NO_TABLES) == (map[], NO_TABLES);
    assert Walk(nodes, rest[0].value, [], true, NO_TABLES) == (Arr([]), NO_TABLES);
    assert WalkMembers(nodes, rest, {"$defs"}, [], NO_TABLES) == (map["enum" := Arr([])], NO_TABLES);
    assert "title"[0] != "$defs"[0] && members[0].key !in {"$defs"};
    assert Walk(nodes, members[0].value, [], true, NO_TABLES) == (Leaf(Text("A")), NO_TABLES);
    assert Enter([], members) == [] && NodeRef(members).None?;
    var (fields, t0) := WalkMembers(nodes, members, {"$defs"}, [], NO_TABLES);
    assert fields == ENUM_BODY.fields && t0 == NO_TABLES;
    assert HoistedTitle(ENUM_BODY.fields) == Some("A");
    assert UniqueName("A", {}) == "A";
    var (name, t) := Register("A", ENUM_BODY, NO_TABLES);
    assert name == "A" && t.defs == map["A" := Some(ENUM_BODY)] && t.names == map[ENUM_BODY := "A"];
  }

  lemma WalkedDangling()
    ensures Walked(DANGLING)
            == (Obj(map["p" := RefValue("A"), "q" := RefValue("A")]),
                Tables(map["A" := Some(ENUM_BODY)], map[ENUM_BODY := "A"], map[]))
  {
    var nodes := Nodes(DANGLING);
    NodesClosed(DANGLING);
    WalkPair(nodes, 1, RefNode(2, "A"), ENUMERATION, [], NO_TABLES);
    WalkDanglingRef(nodes, 2, "A", [], true, NO_TABLES);
    WalkEnumeration(nodes);
  }

  lemma DanglingMeansNothing()
    ensures SchemaMeaning(DANGLING).None?
  {
    var nodes := Nodes(DANGLING);
    NodesClosed(DANGLING);
    EnterIn([], DANGLING, nodes);
    RefNodeRefers("A");
    var rest := DANGLING.members[1..];
    assert rest[0] == Member("q", ENUMERATION) && rest[1..] == [];
    assert Get(DANGLING.members, "$ref") == Get(rest, "$ref") == None;
    assert Get(DANGLING.members, "$defs") == Get(rest, "$defs") == None;
    assert DANGLING.members[0].value == RefNode(2, "A");
    assert Inline(nodes, RefNode(2, "A"), [], {}).None?;
  }

  lemma TraceDanglingRef(nodes: set<Node>, tag: nat, name: string, scopes: seq<Scope>, t: Tables)
    requires Closed(nodes) && RefNode(tag, name) in nodes && ScopesIn(scopes, nodes)
    requires Lookup(scopes, name).None?
    ensures name in TraceWalk(nodes, RefNode(tag, name), scopes, t).missing
  {
    RefNodeRefers(name);
    EnterIn(scopes, RefNode(tag, name), nodes);
  }

  lemma DanglingIsMissing()
    ensures "A" in SchemaTrace(DANGLING).missing
  {
    var nodes := Nodes(DANGLING);
    NodesClosed(DANGLING);
    TracePair(nodes, 1, RefNode(2, "A"), ENUMERATION, [], NO_TABLES);
    TraceDanglingRef(nodes, 2, "A", [], NO_TABLES);
  }

  /** The result then gives the reference a meaning it did not have: the enumeration captured it. */
  lemma DanglingIsCaptured()
    ensures SchemaMeaning(DANGLING).None?
    ensures DocumentMeaning(Organised(DANGLING)).Some? && "A" in Captured(DANGLING)
  {
    hide Walk, TraceWalk, Inline, InlineLocalRefs;
    DanglingIsMissing();
    DanglingMeansNothing();
    WalkedDangling();
    OrganisedParts(DANGLING);
    var (organised, t) := Walked(DANGLING);
    assert Done(t) == map["A" := ENUM_BODY];
    RefToEnumMeans(t);
    PlainMeaning(organised.fields, map["p" := ENUM_BODY, "q" := ENUM_BODY], t);
  }

  lemma RefToEnumMeans(t: Tables)
    requires Done(t) == map["A" := ENUM_BODY]
    ensures Meaning(RefValue("A"), t) == Some(ENUM_BODY)
  {
    var own := map["title" := Leaf(Text("A")), "enum" := Arr([])];
    assert InlineLocalRefs(ENUM_BODY, Done(t), {"A"}) == Some(ENUM_BODY) by {
      assert InlineEach(Arr([]), Done(t), {"A"}).value == [];
      assert InlineLocalRefs(own["title"], Done(t), {"A"}) == Some(own["title"]);
      assert InlineLocalRefs(own["enum"], Done(t), {"A"}) == Some(own["enum"]);
      assert InlineOwn(ENUM_BODY, Done(t), {"A"}).value == own;
    }
    BareRefMeaning("A", ENUM_BODY, t);
  }

  // A definition whose reference is shadowed where it is used.

  const OUTER := [Member("A", RefNode(10, "B")), Member("B", NLeaf(Literal("1")))]
  const INNER := [Member("B", NLeaf(Literal("2")))]
  const SHADOWED := NObj(1, [Member("$defs", NObj(2, OUTER)), Member("x", Rooted(3, INNER, "A"))])

  lemma ShadowedLookups()
    ensures Lookup([OUTER, INNER], "A") == Some(RefNode(10, "B"))
    ensures Lookup([OUTER, INNER], "B") == Some(NLeaf(Literal("2")))
    ensures LookupWithScopes([OUTER, INNER], "A") == Some((RefNode(10, "B"), [OUTER]))
    ensures LookupWithScopes([OUTER], "B") == Some((NLeaf(Literal("1")), [OUTER]))
  {
    assert "A"[0] != "B"[0];
    assert [OUTER, INNER][..1] == [OUTER];
    assert INNER[1..] == [] && Get(INNER[1..], "A") == None;
    assert OUTER[1..] == [Member("B", NLeaf(Literal("1")))];
    assert Get(OUTER[1..], "B") == Some(NLeaf(Literal("1")));
  }

  lemma InlineBareRef(nodes: set<Node>, tag: nat, name: string, scopes: seq<Scope>, open: set<Node>, scalar: Scalar)
    requires Closed(nodes) && RefNode(tag, name) in nodes && ScopesIn(scopes, nodes)
    ensures Lookup(scopes, name) == Some(NLeaf(scalar)) && NLeaf(scalar) !in open ==>
              Inline(nodes, RefNode(tag, name), scopes, open) == Some(Leaf(scalar))
    ensures LookupWithScopes(scopes, name) == Some((NLeaf(scalar), scopes)) && NLeaf(scalar) !in open ==>
              InlineLexical(nodes, RefNode(tag, name), scopes, open) == Some(Leaf(scalar))
  {
    var node, skip := RefNode(tag, name), {"$ref", "$defs"};
    RefNodeRefers(name);
    EnterIn(scopes, node, nodes);
    LookupIn(scopes, name, nodes);
    LookupWithScopesIn(scopes, name, nodes);
    assert node.members[1..] == [];
    assert InlineMembers(nodes, node.members, skip, scopes, open) == Some(map[]);
    assert InlineLexicalMembers(nodes, node.members, skip, scopes, open) == Some(map[]);
  }

  lemma InlineShadowedUse(nodes: set<Node>)
    requires Closed(nodes) && Rooted(3, INNER, "A") in nodes && ScopesIn([OUTER], nodes)
    ensures Inline(nodes, Rooted(3, INNER, "A"), [OUTER], {}) == Some(Leaf(Literal("2")))
    ensures InlineLexical(nodes, Rooted(3, INNER, "A"), [OUTER], {}) == Some(Leaf(Literal("1")))
  {
    var node, skip, scopes := Rooted(3, INNER, "A"), {"$ref", "$defs"}, [OUTER, INNER];
    EnterIn([OUTER], node, nodes);
    var rest := node.members[1..];
    assert rest == [RefMember("A")] && rest[1..] == [];
    assert [OUTER] + [INNER] == scopes;
    RefNodeRefers("A");
    assert NodeRef(node.members) == Some("A") by { assert Get(node.members, "$ref") == Get(rest, "$ref"); }
    ShadowedLookups();
    LookupIn(scopes, "A", nodes);
    LookupWithScopesIn(scopes, "A", nodes);
    assert InlineMembers(nodes, node.members, skip, scopes, {}) == Some(map[]) by {
      assert InlineMembers(nodes, rest, skip, scopes, {}) == InlineMembers(nodes, rest[1..], skip, scopes, {});
    }
    assert InlineLexicalMembers(nodes, node.members, skip, scopes, {}) == Some(map[]) by {
      assert InlineLexicalMembers(nodes, rest, skip, scopes, {})
          == InlineLexicalMembers(nodes, rest[1..], skip, scopes, {});
    }
    InlineBareRef(nodes, 10, "B", scopes, {} + {RefNode(10, "B")}, Literal("2"));
    InlineBareRef(nodes, 10, "B", [OUTER], {} + {RefNode(10, "B")}, Literal("1"));
  }

  /**
    The reading the code takes differs from the documented one: the reference inside a
    definition is resolved where the definition is used.
   */
  lemma ShadowingChangesMeaning()
    ensures NodesOf(SHADOWED, OUTER)
    ensures SchemaMeaning(SHADOWED) == Some(Obj(map["x" := Leaf(Literal("2"))]))
    ensures InlineLexical(Nodes(SHADOWED), SHADOWED, [], {}) == Some(Obj(map["x" := Leaf(Literal("1"))]))
  {
    ShadowedParts();
    var nodes, rest := Nodes(SHADOWED), SHADOWED.members[1..];
    InlineShadowedUse(nodes);
    ShadowedMembers(nodes);
  }

  lemma ShadowedMembers(nodes: set<Node>)
    requires Closed(nodes) && MembersIn(SHADOWED.members, nodes) && ScopesIn([OUTER], nodes)
    ensures InlineMembers(nodes, SHADOWED.members, {"$defs"}, [OUTER], {}) == Some(map["x" := Leaf(Literal("2"))])
    ensures InlineLexicalMembers(nodes, SHADOWED.members, {"$defs"}, [OUTER], {})
            == Some(map["x" := Leaf(Literal("1"))])
  {
    var rest := SHADOWED.members[1..];
    assert rest == [Member("x", Rooted(3, INNER, "A"))] && rest[1..] == [];
    assert SHADOWED.members[1].value in nodes;
    InlineShadowedUse(nodes);
    assert InlineMembers(nodes, rest[1..], {"$defs"}, [OUTER], {}) == Some(map[]);
    assert InlineLexicalMembers(nodes, rest[1..], {"$defs"}, [OUTER], {}) == Some(map[]);
  }

  lemma ShadowedParts()
    ensures var nodes := Nodes(SHADOWED);
            NodesOf(SHADOWED, OUTER) && MembersIn(SHADOWED.members, nodes) && Rooted(3, INNER, "A") in nodes
    ensures Enter([], SHADOWED.members) == [OUTER] && NodeRef(SHADOWED.members).None?
  {
    var nodes := Nodes(SHADOWED);
    NodesClosed(SHADOWED);
    EnterIn([], SHADOWED, nodes);
    var rest := SHADOWED.members[1..];
    assert rest == [Member("x", Rooted(3, INNER, "A"))] && rest[1..] == [];
    assert [] + [OUTER] == [OUTER] == Enter([], SHADOWED.members);
    assert Get(SHADOWED.members, "$ref") == Get(rest, "$ref") == None;
    assert SHADOWED.members[1].value in nodes;
  }
}
