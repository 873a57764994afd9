/**
  Resolving references lexically: a definition sees the scopes around it, not those around
  the reference to it.  The reorganiser's documentation promises this reading, its code
  walks a definition with the scopes of the reference.  The two agree on schemas in which
  every reference resolves and a nested `$defs` block either redefines nothing that is visible
  around it, or defines all that is referred to under it.
 */
module LexicalScopes {
  import opened Wrappers
  import opened Json
  import opened Inlining
  import opened OrganisedSchema
  import opened Tracing

  /** The innermost definition of a name, with the scopes it was defined under. */
  function LookupWithScopes(scopes: seq<Scope>, name: string): Option<(Node, seq<Scope>)> {
    if scopes == [] then None
    else
      match Get(scopes[|scopes| - 1], name)
      case Some(NLeaf(Null)) => None
      case Some(target) => Some((target, scopes))
      case None => LookupWithScopes(scopes[..|scopes| - 1], name)
  }

  lemma LookupWithScopesIn(scopes: seq<Scope>, name: string, nodes: set<Node>)
    requires ScopesIn(scopes, nodes)
    ensures LookupWithScopes(scopes, name).Some? ==>
              var (target, outer) := LookupWithScopes(scopes, name).value;
              Lookup(scopes, name) == Some(target) && target in nodes && outer <= scopes && ScopesIn(outer, nodes)
  {
    LookupIn(scopes, name, nodes);
    if scopes != [] {
      LookupWithScopesIn(scopes[..|scopes| - 1], name, nodes);
    }
  }

  ghost function InlineLexical(nodes: set<Node>, node: Node, scopes: seq<Scope>, open: set<Node>): Option<Value>
    requires Closed(nodes) && node in nodes && ScopesIn(scopes, nodes)
    decreases |nodes - open|, node
  {
    match node
    case NLeaf(scalar) => Some(Leaf(scalar))
    case NArr(_, elements) =>
      var items :- InlineLexicalItems(nodes, elements, scopes, open);
      Some(Arr(items))
    case NObj(_, members) =>
      var inner := Enter(scopes, members);
      EnterIn(scopes, node, nodes);
      match NodeRef(members) {
        case Some(name) =>
          LookupWithScopesIn(inner, name, nodes);
          var found :- LookupWithScopes(inner, name);
          var overrides :- InlineLexicalMembers(nodes, members, {"$ref", "$defs"}, inner, open);
          if found.0 in open then None
          else
            FewerLeft(nodes, open, found.0);
            var base :- InlineLexical(nodes, found.0, found.1, open + {found.0});
            Some(Overlay(base, overrides))
        case None =>
          var fields :- InlineLexicalMembers(nodes, members, {"$defs"}, inner, open);
          Some(Obj(fields))
      }
  }

  ghost function InlineLexicalItems(nodes: set<Node>, elements: seq<Node>, scopes: seq<Scope>, open: set<Node>)
    : Option<seq<Value>>
    requires Closed(nodes) && (forall e | e in elements :: e in nodes) && ScopesIn(scopes, nodes)
    decreases |nodes - open|, elements
  {
    if elements == [] then Some([])
    else
      var first :- InlineLexical(nodes, elements[0], scopes, open);
      var rest :- InlineLexicalItems(nodes, elements[1..], scopes, open);
      Some([first] + rest)
  }

  ghost function InlineLexicalMembers(nodes: set<Node>, members: seq<Member>, skip: set<string>,
                                      scopes: seq<Scope>, open: set<Node>): Option<map<string, Value>>
    requires Closed(nodes) && MembersIn(members, nodes) && ScopesIn(scopes, nodes)
    decreases |nodes - open|, members
  {
    if members == [] then Some(map[])
    else if members[0].key in skip then InlineLexicalMembers(nodes, members[1..], skip, scopes, open)
    else
      var first :- InlineLexical(nodes, members[0].value, scopes, open);
      var rest :- InlineLexicalMembers(nodes, members[1..], skip, scopes, open);
      Some(rest[members[0].key := first])
  }

  /** No block redefines a name of a block around it. */
  ghost predicate Unshadowed(visible: seq<Scope>) {
    forall i, j, name | 0 <= i < j < |visible| && Get(visible[i], name).Some? && Get(visible[j], name).Some? ::
      Get(visible[i], name) == Get(visible[j], name)
  }

  /**
    With these blocks visible, every reference in the node resolves in them; a block of its own
    either shadows none of them, or hides them because nothing under it needs them.
   */
  ghost predicate Unambiguous(node: Node, visible: seq<Scope>)
    decreases node, 1
  {
    match node
    case NLeaf(_) => true
    case NArr(_, elements) => forall i | 0 <= i < |elements| :: Unambiguous(elements[i], visible)
    case NObj(_, members) =>
      match Get(members, "$defs")
      case Some(NObj(_, local)) =>
        (Unshadowed(visible + [local]) && UnambiguousInside(node, visible + [local]))
        || UnambiguousInside(node, [local])
      case _ => UnambiguousInside(node, visible)
  }

  /** The same for the members of an object, and the definitions it holds. */
  ghost predicate UnambiguousInside(node: Node, visible: seq<Scope>)
    requires node.NObj?
    decreases node, 0
  {
    var members := node.members;
    && (NodeRef(members).Some? ==> Lookup(visible, NodeRef(members).value).Some?)
    && (forall i | 0 <= i < |members| && members[i].key != "$defs" :: Unambiguous(members[i].value, visible))
    && (forall i | 0 <= i < |members| && members[i].key == "$defs" && members[i].value.NObj? ::
          forall j | 0 <= j < |members[i].value.members| :: Unambiguous(members[i].value.members[j].value, visible))
  }

  /** Blocks none of which shadows another, and whose definitions are read where they stand. */
  ghost predicate Visible(visible: seq<Scope>) {
    && Unshadowed(visible)
    && forall i, d: Member | 0 <= i < |visible| && d in visible[i] :: Unambiguous(d.value, visible[..i + 1])
  }

  /** Other scopes that resolve alike all that is visible. */
  ghost predicate Shows(scopes: seq<Scope>, visible: seq<Scope>) {
    forall name | Lookup(visible, name).Some? :: Lookup(scopes, name) == Lookup(visible, name)
  }

  /** Unless blocks shadow each other, it does not matter which defines a name. */
  lemma {:induction false} UnshadowedLookup(visible: seq<Scope>, name: string, i: nat)
    requires Unshadowed(visible) && i < |visible|
    requires Get(visible[i], name).Some? && Get(visible[i], name) != Some(NLeaf(Null))
    ensures Lookup(visible, name) == Get(visible[i], name)
    decreases |visible|
  {
    var n := |visible| - 1;
    if Get(visible[n], name).None? {
      UnshadowedLookup(visible[..n], name, i);
    }
  }

  /** Where a visible name is found, whatever lies further out. */
  lemma {:induction false} FoundVisible(outer: seq<Scope>, visible: seq<Scope>, name: string) returns (i: nat)
    requires Lookup(visible, name).Some?
    ensures i < |visible| && Get(visible[i], name) == Lookup(visible, name) != Some(NLeaf(Null))
    ensures LookupWithScopes(outer + visible, name) == Some((Lookup(visible, name).value, outer + visible[..i + 1]))
    decreases |visible|
  {
    var n := |visible| - 1;
    assert (outer + visible)[|outer| + n] == visible[n] && (outer + visible)[..|outer| + n] == outer + visible[..n];
    if Get(visible[n], name).None? {
      i := FoundVisible(outer, visible[..n], name);
      assert visible[..n][..i + 1] == visible[..i + 1];
    } else {
      i := n;
      assert visible[..n + 1] == visible;
    }
  }

  /** A definition sees no more than the blocks around it, and those still resolve alike. */
  lemma ShowsPrefix(scopes: seq<Scope>, visible: seq<Scope>, n: nat)
    requires n <= |visible| && Visible(visible) && Shows(scopes, visible)
    ensures Visible(visible[..n]) && Shows(scopes, visible[..n])
  {
    var prefix := visible[..n];
    forall i, d: Member | 0 <= i < |prefix| && d in prefix[i] ensures Unambiguous(d.value, prefix[..i + 1]) {
      assert prefix[..i + 1] == visible[..i + 1] && d in visible[i];
    }
    forall name | Lookup(prefix, name).Some? ensures Lookup(scopes, name) == Lookup(prefix, name) {
      var i := FoundVisible([], prefix, name);
      UnshadowedLookup(visible, name, i);
    }
  }

  /** Entering a block that shadows nothing. */
  lemma ShowsPushed(scopes: seq<Scope>, visible: seq<Scope>, local: Scope)
    requires Visible(visible) && Shows(scopes, visible) && Unshadowed(visible + [local])
    requires forall d | d in local :: Unambiguous(d.value, visible + [local])
    ensures Visible(visible + [local]) && Shows(scopes + [local], visible + [local])
  {
    var deeper := visible + [local];
    forall i, d: Member | 0 <= i < |deeper| && d in deeper[i] ensures Unambiguous(d.value, deeper[..i + 1]) {
      assert i < |visible| ==> deeper[..i + 1] == visible[..i + 1] && deeper[i] == visible[i];
      assert i == |visible| ==> deeper[..i + 1] == deeper;
    }
    forall name | Lookup(deeper, name).Some? ensures Lookup(scopes + [local], name) == Lookup(deeper, name) {
    }
  }

  /** Entering a block that nothing outside matters to. */
  lemma ShowsAlone(scopes: seq<Scope>, local: Scope)
    requires forall d | d in local :: Unambiguous(d.value, [local])
    ensures Visible([local]) && Shows(scopes + [local], [local])
  {
    assert [local][..1] == [local];
    forall name | Lookup([local], name).Some? ensures Lookup(scopes + [local], name) == Lookup([local], name) {
      assert [] + [local] == [local];
    }
  }

  /** The definitions an object holds are read under the blocks visible inside it. */
  lemma DefinitionsInside(node: Node, visible: seq<Scope>)
    requires node.NObj? && UnambiguousInside(node, visible)
    ensures match Get(node.members, "$defs")
            case Some(NObj(_, local)) => forall d | d in local :: Unambiguous(d.value, visible)
            case _ => true
  {
    GetIn(node.members, "$defs");
    var defs := Get(node.members, "$defs");
    if defs.Some? && defs.value.NObj? {
      var i :| 0 <= i < |node.members| && node.members[i] == Member("$defs", defs.value);
      forall d | d in defs.value.members ensures Unambiguous(d.value, visible) {
        var j :| 0 <= j < |node.members[i].value.members| && node.members[i].value.members[j] == d;
      }
    }
  }

  /** What is visible inside an object, and what lies further out. */
  lemma EnterVisible(node: Node, scopes: seq<Scope>, outer: seq<Scope>, visible: seq<Scope>)
    returns (outer': seq<Scope>, visible': seq<Scope>)
    requires node.NObj? && Unambiguous(node, visible) && Visible(visible) && Shows(scopes, visible)
    ensures UnambiguousInside(node, visible') && Visible(visible') && Shows(Enter(scopes, node.members), visible')
    ensures Enter(outer + visible, node.members) == outer' + visible'
  {
    outer', visible' := outer, visible;
    match Get(node.members, "$defs")
    case Some(NObj(_, local)) =>
      if Unshadowed(visible + [local]) && UnambiguousInside(node, visible + [local]) {
        visible' := visible + [local];
        DefinitionsInside(node, visible');
        ShowsPushed(scopes, visible, local);
        assert outer + visible + [local] == outer + visible';
      } else {
        outer', visible' := outer + visible, [local];
        DefinitionsInside(node, visible');
        ShowsAlone(scopes, local);
      }
    case _ =>
  }

  /** In an unambiguous schema the code's reading and the documented one agree. */
  lemma {:induction false} LexicalAgrees(nodes: set<Node>, node: Node, scopes: seq<Scope>,
                                         outer: seq<Scope>, visible: seq<Scope>, open: set<Node>)
    requires Closed(nodes) && node in nodes && ScopesIn(scopes, nodes) && ScopesIn(outer + visible, nodes)
    requires Unambiguous(node, visible) && Visible(visible) && Shows(scopes, visible)
    ensures Inline(nodes, node, scopes, open) == InlineLexical(nodes, node, outer + visible, open)
    decreases |nodes - open|, 1, node
  {
    match node
    case NLeaf(_) =>
    case NArr(_, elements) =>
      LexicalItemsAgree(nodes, elements, scopes, outer, visible, open);
    case NObj(_, members) =>
      hide Visible, Shows, Lookup, LookupWithScopes, InlineMembers, InlineLexicalMembers;
      var inner := Enter(scopes, members);
      EnterIn(scopes, node, nodes);
      EnterIn(outer + visible, node, nodes);
      var outer', visible' := EnterVisible(node, scopes, outer, visible);
      match NodeRef(members) {
        case Some(name) =>
          LexicalMembersAgree(nodes, members, {"$ref", "$defs"}, inner, outer', visible', open);
          FoundAgrees(nodes, name, inner, outer', visible', open);
        case None =>
          LexicalMembersAgree(nodes, members, {"$defs"}, inner, outer', visible', open);
      }
  }

  /** Both readings follow a reference to the same definition, and read that alike. */
  lemma {:induction false} FoundAgrees(nodes: set<Node>, name: string, scopes: seq<Scope>,
                                       outer: seq<Scope>, visible: seq<Scope>, open: set<Node>)
    requires Closed(nodes) && ScopesIn(scopes, nodes) && ScopesIn(outer + visible, nodes)
    requires Lookup(visible, name).Some? && Visible(visible) && Shows(scopes, visible)
    ensures Lookup(scopes, name).Some? && LookupWithScopes(outer + visible, name).Some?
    ensures var target, (target', definedUnder) := Lookup(scopes, name).value,
                                                   LookupWithScopes(outer + visible, name).value;
            && target == target' && target in nodes && ScopesIn(definedUnder, nodes)
            && (target !in open ==> Inline(nodes, target, scopes, open + {target})
                                    == InlineLexical(nodes, target, definedUnder, open + {target}))
    decreases |nodes - open|, 0
  {
    var i := FoundVisible(outer, visible, name);
    LookupIn(scopes, name, nodes);
    LookupWithScopesIn(outer + visible, name, nodes);
    var target := Lookup(scopes, name).value;
    GetIn(visible[i], name);
    assert Unambiguous(Member(name, target).value, visible[..i + 1]);
    ShowsPrefix(scopes, visible, i + 1);
    if target !in open {
      FewerLeft(nodes, open, target);
      LexicalAgrees(nodes, target, scopes, outer, visible[..i + 1], open + {target});
    }
  }

  lemma {:induction false} LexicalItemsAgree(nodes: set<Node>, elements: seq<Node>, scopes: seq<Scope>,
                                             outer: seq<Scope>, visible: seq<Scope>, open: set<Node>)
    requires Closed(nodes) && (forall e | e in elements :: e in nodes)
    requires ScopesIn(scopes, nodes) && ScopesIn(outer + visible, nodes)
    requires forall i | 0 <= i < |elements| :: Unambiguous(elements[i], visible)
    requires Visible(visible) && Shows(scopes, visible)
    ensures InlineItems(nodes, elements, scopes, open) == InlineLexicalItems(nodes, elements, outer + visible, open)
    decreases |nodes - open|, 1, elements
  {
    if elements != [] {
      LexicalAgrees(nodes, elements[0], scopes, outer, visible, open);
      LexicalItemsAgree(nodes, elements[1..], scopes, outer, visible, open);
    }
  }

  lemma {:induction false} LexicalMembersAgree(nodes: set<Node>, members: seq<Member>, skip: set<string>,
                                               scopes: seq<Scope>, outer: seq<Scope>, visible: seq<Scope>,
                                               open: set<Node>)
    requires Closed(nodes) && MembersIn(members, nodes) && ScopesIn(scopes, nodes) && ScopesIn(outer + visible, nodes)
    requires forall i | 0 <= i < |members| && members[i].key !in skip :: Unambiguous(members[i].value, visible)
    requires Visible(visible) && Shows(scopes, visible)
    ensures InlineMembers(nodes, members, skip, scopes, open)
            == InlineLexicalMembers(nodes, members, skip, outer + visible, open)
    decreases |nodes - open|, 1, members
  {
    if members == [] {
    } else if members[0].key in skip {
      LexicalMembersAgree(nodes, members[1..], skip, scopes, outer, visible, open);
    } else {
      LexicalAgrees(nodes, members[0].value, scopes, outer, visible, open);
      LexicalMembersAgree(nodes, members[1..], skip, scopes, outer, visible, open);
    }
  }

  /** What a schema means as its documentation has it. */
  ghost function LexicalMeaning(schema: Node): Option<Value> {
    NodesClosed(schema);
    InlineLexical(Nodes(schema), schema, [], {})
  }

  /** Reorganising an unambiguous schema keeps the meaning the documentation gives it. */
  lemma OrganisedLexically(schema: Node)
    requires schema.NObj? && Unambiguous(schema, [])
    ensures SchemaMeaning(schema) == LexicalMeaning(schema)
    ensures LexicalMeaning(schema).Some? || (Dictionaries(Nodes(schema)) && Captured(schema) == {}) ==>
              DocumentMeaning(Organised(schema)) == LexicalMeaning(schema)
  {
    hide Inline, InlineLexical, Unambiguous, Captured, DocumentMeaning, Organised;
    NodesClosed(schema);
    var none: seq<Scope> := [];
    assert none + none == none;
    LexicalAgrees(Nodes(schema), schema, none, none, none, {});
    OrganisedMeans(schema);
  }
}
