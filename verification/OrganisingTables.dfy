/** What every walk keeps, whatever the schema, references that lead in circles included. */
module OrganisingTables {
  import opened Wrappers
  import opened Json
  import opened Inlining
  import opened FreshNames
  import opened Organising

  /**
    The names without a body are those reserved for definitions being walked, and finished
    bodies and their names determine each other.
   */
  ghost predicate Consistent(t: Tables) {
    && t.open.Values <= t.defs.Keys
    && (forall n | n in t.defs :: t.defs[n].None? <==> n in t.open.Values)
    && (forall v | v in t.names :: t.names[v] in t.defs && t.defs[t.names[v]] == Some(v))
    && (forall n | n in t.defs && t.defs[n].Some? :: t.defs[n].value in t.names && t.names[t.defs[n].value] == n)
  }

  /** No `$defs` in it, and no object that should have been hoisted. */
  ghost predicate Tidy(value: Value)
    decreases value, 1
  {
    TidyInside(value)
    && (value.Obj? && ValueRef(value.fields).None? ==> HoistedTitle(value.fields).None?)
  }

  /** The same, except that the value itself may be one to hoist. */
  ghost predicate TidyInside(value: Value)
    decreases value, 0
  {
    match value
    case Leaf(_) => true
    case Arr(items) => forall i | 0 <= i < |items| :: Tidy(items[i])
    case Obj(fields) => "$defs" !in fields && forall k | k in fields :: Tidy(fields[k])
  }

  /** The body of a finished definition: never the null that marks a reserved name. */
  ghost predicate TidyBody(value: Value) {
    TidyInside(value) && value != Leaf(Null)
  }

  ghost predicate TidyBodies(t: Tables) {
    forall n | n in t.defs && t.defs[n].Some? :: TidyBody(t.defs[n].value)
  }

  /** Finished definitions stay as they are. */
  ghost predicate Grows(t: Tables, t': Tables) {
    forall n | n in t.defs && t.defs[n].Some? :: n in t'.defs && t'.defs[n] == t.defs[n]
  }

  ghost predicate Kept(t: Tables, t': Tables) {
    Consistent(t') && TidyBodies(t') && Grows(t, t')
  }

  lemma RegisterKeeps(preferred: string, fields: map<string, Value>, t: Tables)
    requires Consistent(t) && TidyBodies(t) && TidyInside(Obj(fields))
    ensures var (name, t') := Register(preferred, Obj(fields), t);
            Kept(t, t') && name in t'.defs && t'.defs[name] == Some(Obj(fields))
  {
  }

  lemma ReserveKeeps(reserved: string, target: Node, t: Tables)
    requires Consistent(t) && TidyBodies(t) && reserved !in t.defs && target !in t.open
    ensures Kept(t, Reserve(reserved, target, t))
    ensures Reserve(reserved, target, t).open.Keys == t.open.Keys + {target}
  {
    var open := t.open[target := reserved];
    assert open.Values == t.open.Values + {reserved} by {
      forall v | v in t.open.Values ensures v in open.Values {
        var k :| k in t.open && t.open[k] == v;
        assert open[k] == v;
      }
      assert open[target] == reserved;
    }
  }

  lemma KeptTrans(t: Tables, t': Tables, t'': Tables)
    requires Kept(t, t') && Kept(t', t'')
    ensures Kept(t, t'')
  {
  }

  /** Dropping a target from `open` frees exactly the name reserved for it. */
  lemma ReservedFreed(reserved: string, target: Node, t: Tables, open': map<Node, string>)
    requires Consistent(t) && reserved !in t.defs && target !in t.open
    requires open' == t.open[target := reserved]
    ensures open' - {target} == t.open
    ensures open'.Values == t.open.Values + {reserved} && reserved !in t.open.Values
  {
    forall v | v in t.open.Values ensures v in open'.Values {
      var k :| k in t.open && t.open[k] == v;
      assert open'[k] == v;
    }
    assert open'[target] == reserved;
  }

  /** The reserved name is either given its body or handed back. */
  lemma SettleKeeps(reserved: string, target: Node, resolved: Value, t: Tables, t': Tables)
    requires Consistent(t) && reserved !in t.defs && target !in t.open
    requires Kept(t, t') && t'.open == t.open[target := reserved]
    requires TidyBody(resolved)
    ensures var (final, t'') := Settle(reserved, target, resolved, t');
            Kept(t, t'') && Grows(t', t'') && final in t''.defs && t''.defs[final] == Some(resolved)
  {
    ReservedFreed(reserved, target, t, t'.open);
    var (final, t'') := Settle(reserved, target, resolved, t');
    assert t''.open == t.open;
    assert t'.defs[reserved].None?;
    if resolved in t'.names {
      assert t'.names[resolved] != reserved;
      assert Grows(t', t'');
      assert Consistent(t'');
    } else {
      assert Grows(t', t'');
      assert Consistent(t'');
    }
  }

  lemma {:induction false} ResolveKeeps(nodes: set<Node>, name: string, target: Node, scopes: seq<Scope>, t: Tables)
    requires Closed(nodes) && target in nodes && target != NLeaf(Null) && ScopesIn(scopes, nodes)
    requires Consistent(t) && TidyBodies(t)
    ensures Kept(t, ResolveNamed(nodes, name, target, scopes, t).1)
    decreases |nodes - t.open.Keys|, 0
  {
    if target !in t.open {
      var reserved := UniqueName(name, t.defs.Keys);
      FewerLeft(nodes, t.open.Keys, target);
      ReserveKeeps(reserved, target, t);
      var (resolved, t') := Walk(nodes, target, scopes, false, Reserve(reserved, target, t));
      WalkKeeps(nodes, target, scopes, false, Reserve(reserved, target, t));
      KeptTrans(t, Reserve(reserved, target, t), t');
      SettleKeeps(reserved, target, resolved, t, t');
    }
  }

  lemma {:induction false} WalkKeeps(nodes: set<Node>, node: Node, scopes: seq<Scope>, wrap: bool, t: Tables)
    requires Closed(nodes) && node in nodes && ScopesIn(scopes, nodes)
    requires Consistent(t) && TidyBodies(t)
    ensures var (value, t') := Walk(nodes, node, scopes, wrap, t);
            Kept(t, t') && TidyInside(value) && (wrap ==> Tidy(value)) && (node != NLeaf(Null) ==> TidyBody(value))
    decreases |nodes - t.open.Keys|, 1, node, 1
  {
    match node
    case NLeaf(_) =>
    case NArr(_, elements) =>
      WalkItemsKeeps(nodes, elements, scopes, t);
    case NObj(_, members) =>
      EnterIn(scopes, node, nodes);
      if NodeRef(members).Some? {
        WalkRefKeeps(nodes, node, scopes, wrap, t);
      } else {
        WalkPlainKeeps(nodes, node, scopes, wrap, t);
      }
  }

  lemma TidyRef(overrides: map<string, Value>, name: string)
    requires "$defs" !in overrides && forall k | k in overrides :: Tidy(overrides[k])
    ensures Tidy(Obj(overrides["$ref" := RefTo(name)]))
  {
    assert Tidy(RefTo(name));
    assert ValueRef(overrides["$ref" := RefTo(name)]) == Some(name);
  }

  lemma {:induction false} WalkRefKeeps(nodes: set<Node>, node: Node, scopes: seq<Scope>, wrap: bool, t: Tables)
    requires Closed(nodes) && node in nodes && ScopesIn(scopes, nodes)
    requires Consistent(t) && TidyBodies(t)
    requires node.NObj? && NodeRef(node.members).Some?
    ensures var (value, t') := Walk(nodes, node, scopes, wrap, t);
            Kept(t, t') && Tidy(value)
    decreases |nodes - t.open.Keys|, 1, node, 0
  {
    var inner, name := Enter(scopes, node.members), NodeRef(node.members).value;
    EnterIn(scopes, node, nodes);
    LookupIn(inner, name, nodes);
    var (overrides, t') := WalkMembers(nodes, node.members, {"$ref", "$defs"}, inner, t);
    WalkMembersKeeps(nodes, node.members, {"$ref", "$defs"}, inner, t);
    assert "$defs" !in overrides;
    match Lookup(inner, name)
    case None =>
      TidyRef(overrides, name);
    case Some(target) =>
      TidyRef(overrides, ResolveNamed(nodes, name, target, inner, t').0);
      ResolveKeeps(nodes, name, target, inner, t');
      KeptTrans(t, t', ResolveNamed(nodes, name, target, inner, t').1);
  }

  lemma {:induction false} WalkPlainKeeps(nodes: set<Node>, node: Node, scopes: seq<Scope>, wrap: bool, t: Tables)
    requires Closed(nodes) && node in nodes && ScopesIn(scopes, nodes)
    requires Consistent(t) && TidyBodies(t)
    requires node.NObj? && NodeRef(node.members).None?
    ensures var (value, t') := Walk(nodes, node, scopes, wrap, t);
            Kept(t, t') && TidyInside(value) && (wrap ==> Tidy(value))
    decreases |nodes - t.open.Keys|, 1, node, 0
  {
    var inner := Enter(scopes, node.members);
    EnterIn(scopes, node, nodes);
    var (fields, t') := WalkMembers(nodes, node.members, {"$defs"}, inner, t);
    WalkMembersKeeps(nodes, node.members, {"$defs"}, inner, t);
    if wrap && HoistedTitle(fields).Some? {
      RegisterKeeps(HoistedTitle(fields).value, fields, t');
      KeptTrans(t, t', Register(HoistedTitle(fields).value, Obj(fields), t').1);
    }
  }

  lemma {:induction false} WalkItemsKeeps(nodes: set<Node>, elements: seq<Node>, scopes: seq<Scope>, t: Tables)
    requires Closed(nodes) && (forall e | e in elements :: e in nodes) && ScopesIn(scopes, nodes)
    requires Consistent(t) && TidyBodies(t)
    ensures var (items, t') := WalkItems(nodes, elements, scopes, t);
            Kept(t, t') && forall i | 0 <= i < |items| :: Tidy(items[i])
    decreases |nodes - t.open.Keys|, 1, elements
  {
    if elements != [] {
      WalkKeeps(nodes, elements[0], scopes, true, t);
      WalkItemsKeeps(nodes, elements[1..], scopes, Walk(nodes, elements[0], scopes, true, t).1);
    }
  }

  lemma {:induction false} WalkMembersKeeps(nodes: set<Node>, members: seq<Member>, skip: set<string>,
                                            scopes: seq<Scope>, t: Tables)
    requires Closed(nodes) && MembersIn(members, nodes) && ScopesIn(scopes, nodes)
    requires Consistent(t) && TidyBodies(t)
    ensures var (fields, t') := WalkMembers(nodes, members, skip, scopes, t);
            Kept(t, t') && fields.Keys !! skip && forall k | k in fields :: Tidy(fields[k])
    decreases |nodes - t.open.Keys|, 1, members
  {
    if members == [] {
    } else if members[0].key in skip {
      WalkMembersKeeps(nodes, members[1..], skip, scopes, t);
    } else {
      WalkKeeps(nodes, members[0].value, scopes, true, t);
      WalkMembersKeeps(nodes, members[1..], skip, scopes, Walk(nodes, members[0].value, scopes, true, t).1);
    }
  }
}
