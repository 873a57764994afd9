/**
  What a walk does with names, whatever the schema: which names it hands out for definitions
  still being walked, which of them it later withdraws, and which references lead nowhere.
  They account for every reference in what the walk writes.
 */
module Tracing {
  import opened Wrappers
  import opened Json
  import opened Inlining
  import opened FreshNames
  import opened Organising
  import opened OrganisingTables
  import opened OrganisingMeaning

  /**
    The names handed out for definitions in progress when the walk began, those handed out
    and then withdrawn, and those that no scope defines.
   */
  datatype Trace = Trace(handed: set<string>, withdrawn: set<string>, missing: set<string>)

  const NOTHING := Trace({}, {}, {})

  function Both(a: Trace, b: Trace): Trace {
    Trace(a.handed + b.handed, a.withdrawn + b.withdrawn, a.missing + b.missing)
  }

  /** The trace of a definition, seen from outside once its reserved name has been settled. */
  function Settled(trace: Trace, reserved: string, merged: bool): Trace {
    Trace(trace.handed - {reserved},
          trace.withdrawn + (if merged && reserved in trace.handed then {reserved} else {}),
          trace.missing)
  }

  ghost function TraceResolve(nodes: set<Node>, name: string, target: Node, scopes: seq<Scope>, t: Tables): (r: Trace)
    requires Closed(nodes) && target in nodes && ScopesIn(scopes, nodes)
    ensures r.handed <= t.open.Values
    decreases |nodes - t.open.Keys|, 0
  {
    if target in t.open then Trace({t.open[target]}, {}, {})
    else
      var reserved := UniqueName(name, t.defs.Keys);
      ReserveOpens(nodes, reserved, target, t);
      var during := Reserve(reserved, target, t);
      var (resolved, t') := Walk(nodes, target, scopes, false, during);
      Settled(TraceWalk(nodes, target, scopes, during), reserved, Settle(reserved, target, resolved, t').0 != reserved)
  }

  ghost function TraceWalk(nodes: set<Node>, node: Node, scopes: seq<Scope>, t: Tables): (r: Trace)
    requires Closed(nodes) && node in nodes && ScopesIn(scopes, nodes)
    ensures r.handed <= t.open.Values
    decreases |nodes - t.open.Keys|, 1, node
  {
    match node
    case NLeaf(_) => NOTHING
    case NArr(_, elements) => TraceItems(nodes, elements, scopes, t)
    case NObj(_, members) =>
      var inner := Enter(scopes, members);
      EnterIn(scopes, node, nodes);
      match NodeRef(members) {
        case Some(name) =>
          LookupIn(inner, name, nodes);
          var trace := TraceMembers(nodes, members, {"$ref", "$defs"}, inner, t);
          var t' := WalkMembers(nodes, members, {"$ref", "$defs"}, inner, t).1;
          (match Lookup(inner, name)
           case None => Both(trace, Trace({}, {}, {name}))
           case Some(target) => Both(trace, TraceResolve(nodes, name, target, inner, t')))
        case None => TraceMembers(nodes, members, {"$defs"}, inner, t)
      }
  }

  ghost function TraceItems(nodes: set<Node>, elements: seq<Node>, scopes: seq<Scope>, t: Tables): (r: Trace)
    requires Closed(nodes) && (forall e | e in elements :: e in nodes) && ScopesIn(scopes, nodes)
    ensures r.handed <= t.open.Values
    decreases |nodes - t.open.Keys|, 1, elements
  {
    if elements == [] then NOTHING
    else
      Both(TraceWalk(nodes, elements[0], scopes, t),
           TraceItems(nodes, elements[1..], scopes, Walk(nodes, elements[0], scopes, true, t).1))
  }

  ghost function TraceMembers(nodes: set<Node>, members: seq<Member>, skip: set<string>,
                              scopes: seq<Scope>, t: Tables): (r: Trace)
    requires Closed(nodes) && MembersIn(members, nodes) && ScopesIn(scopes, nodes)
    ensures r.handed <= t.open.Values
    decreases |nodes - t.open.Keys|, 1, members
  {
    if members == [] then NOTHING
    else if members[0].key in skip then TraceMembers(nodes, members[1..], skip, scopes, t)
    else
      Both(TraceWalk(nodes, members[0].value, scopes, t),
           TraceMembers(nodes, members[1..], skip, scopes, Walk(nodes, members[0].value, scopes, true, t).1))
  }

  // References in what is written.

  /** The names a value refers to. */
  ghost function Refs(value: Value): set<string>
    decreases value
  {
    match value
    case Leaf(_) => {}
    case Arr(items) => set i, n | 0 <= i < |items| && n in Refs(items[i]) :: n
    case Obj(fields) =>
      (if ValueRef(fields).Some? then {ValueRef(fields).value} else {})
      + (set k, n | k in fields && n in Refs(fields[k]) :: n)
  }

  ghost function FieldRefs(fields: map<string, Value>): set<string> {
    set k, n | k in fields && n in Refs(fields[k]) :: n
  }

  ghost function TableRefs(t: Tables): set<string> {
    FieldRefs(Done(t))
  }

  lemma RefsOfRef(overrides: map<string, Value>, name: string)
    requires "$ref" !in overrides
    ensures Refs(Obj(overrides["$ref" := RefTo(name)])) == FieldRefs(overrides) + {name}
  {
    var value := Obj(overrides["$ref" := RefTo(name)]);
    var fields := value.fields;
    assert ValueRef(fields) == Some(name) && Refs(fields["$ref"]) == {};
    forall n | n in FieldRefs(overrides) ensures n in Refs(value) {
      var k :| k in overrides && n in Refs(overrides[k]);
      assert fields[k] == overrides[k];
    }
    forall n | n in Refs(value) && n != name ensures n in FieldRefs(overrides) {
      var k :| k in fields && n in Refs(fields[k]);
      assert fields[k] == overrides[k];
    }
  }

  lemma RefsOfBareRef(name: string)
    ensures Refs(Obj(map["$ref" := RefTo(name)])) == {name}
  {
    var none: map<string, Value> := map[];
    RefsOfRef(none, name);
    assert none["$ref" := RefTo(name)] == map["$ref" := RefTo(name)];
  }

  lemma RefsOfItems(first: Value, rest: seq<Value>)
    ensures Refs(Arr([first] + rest)) == Refs(first) + Refs(Arr(rest))
  {
    var value, tail := Arr([first] + rest), Arr(rest);
    forall n | n in Refs(first) + Refs(tail) ensures n in Refs(value) {
      if n in Refs(first) {
        assert value.items[0] == first;
      } else {
        var i :| 0 <= i < |tail.items| && n in Refs(tail.items[i]);
        assert value.items[i + 1] == tail.items[i];
      }
    }
    forall n | n in Refs(value) ensures n in Refs(first) + Refs(tail) {
      var i :| 0 <= i < |value.items| && n in Refs(value.items[i]);
      if i > 0 {
        assert value.items[i] == tail.items[i - 1];
      }
    }
  }

  lemma FieldRefsAdded(fields: map<string, Value>, key: string, value: Value)
    ensures FieldRefs(fields[key := value]) <= FieldRefs(fields) + Refs(value)
    ensures key !in fields ==> FieldRefs(fields[key := value]) == FieldRefs(fields) + Refs(value)
  {
    var more := fields[key := value];
    assert more[key] == value;
    if key !in fields {
      forall n | n in FieldRefs(fields) ensures n in FieldRefs(more) {
        var k :| k in fields && n in Refs(fields[k]);
        assert more[k] == fields[k];
      }
    }
  }

  // The trace accounts for the references.

  function Names(trace: Trace): set<string> {
    trace.handed + trace.withdrawn + trace.missing
  }

  /**
    Every reference written names a finished definition or one the trace tells of; and, when the
    account is exact, all that the trace tells of is still referred to.
   */
  ghost predicate Accounts(refs: set<string>, trace: Trace, t: Tables, t': Tables, exact: bool) {
    && refs + TableRefs(t') <= TableRefs(t) + Done(t').Keys + Names(trace)
    && (exact ==> Names(trace) <= refs + TableRefs(t'))
  }

  lemma RefsGrow(t: Tables, t': Tables)
    requires Grows(t, t')
    ensures TableRefs(t) <= TableRefs(t') && Done(t).Keys <= Done(t').Keys
  {
    forall n | n in TableRefs(t) ensures n in TableRefs(t') {
      var k :| k in Done(t) && n in Refs(Done(t)[k]);
      assert Done(t')[k] == Done(t)[k];
    }
  }

  lemma AccountsInTurn(a: set<string>, p: Trace, b: set<string>, q: Trace,
                       t: Tables, t': Tables, t'': Tables, exact: bool)
    requires Accounts(a, p, t, t', exact) && Accounts(b, q, t', t'', exact) && Grows(t', t'')
    ensures Accounts(a + b, Both(p, q), t, t'', exact)
  {
    RefsGrow(t', t'');
    hide TableRefs, Done;
  }

  /** A finished body brings its references into the table. */
  lemma AddedToTable(name: string, body: Value, t: Tables, t': Tables)
    requires Grows(t, t') && name in Done(t') && Done(t')[name] == body
    requires forall n | n in Done(t') && n !in Done(t) :: n == name
    ensures TableRefs(t') == TableRefs(t) + Refs(body)
  {
    RefsGrow(t, t');
    forall n | n in TableRefs(t') ensures n in TableRefs(t) + Refs(body) {
      var k :| k in Done(t') && n in Refs(Done(t')[k]);
      if k != name {
        assert Done(t)[k] == Done(t')[k];
      }
    }
  }

  lemma RegisterAccounts(preferred: string, fields: map<string, Value>, trace: Trace,
                         t: Tables, t': Tables, exact: bool)
    requires Consistent(t') && TidyBodies(t') && TidyInside(Obj(fields))
    requires Accounts(Refs(Obj(fields)), trace, t, t', exact)
    ensures var (name, t'') := Register(preferred, Obj(fields), t');
            Accounts({name}, trace, t, t'', exact)
  {
    RegisterKeeps(preferred, fields, t');
    var (name, t'') := Register(preferred, Obj(fields), t');
    AddedToTable(name, Obj(fields), t', t'');
    RefsGrow(t', t'');
  }

  /** Every object of a document has each of its keys once, as a dictionary does. */
  ghost predicate Dictionaries(nodes: set<Node>) {
    forall n | n in nodes && n.NObj? :: DistinctKeys(n.members)
  }

  predicate DistinctKeys(members: seq<Member>) {
    forall i, j | 0 <= i < j < |members| :: members[i].key != members[j].key
  }

  /** Settling the reserved name moves it from the names handed out to the table or to those withdrawn. */
  lemma SettledAccounts(final: string, reserved: string, body: Value, trace: Trace,
                        t: Tables, t': Tables, t'': Tables, exact: bool)
    requires Accounts(Refs(body), trace, t, t', exact)
    requires Grows(t', t'') && final in Done(t'') && TableRefs(t'') == TableRefs(t') + Refs(body)
    ensures Accounts({final}, Settled(trace, reserved, final != reserved), t, t'', exact)
  {
    RefsGrow(t', t'');
    hide Refs, TableRefs, Done;
  }

  lemma SettleAccounts(reserved: string, target: Node, resolved: Value, trace: Trace,
                       t: Tables, t': Tables, exact: bool)
    requires Consistent(t) && reserved !in t.defs && target !in t.open
    requires Kept(t, t') && t'.open == t.open[target := reserved] && TidyBody(resolved)
    requires Accounts(Refs(resolved), trace, t, t', exact)
    ensures var (final, t'') := Settle(reserved, target, resolved, t');
            Accounts({final}, Settled(trace, reserved, final != reserved), t, t'', exact)
  {
    SettleKeeps(reserved, target, resolved, t, t');
    ReservedFreed(reserved, target, t, t'.open);
    assert t'.defs[reserved].None?;
    SettleDone(reserved, target, resolved, t');
    var (final, t'') := Settle(reserved, target, resolved, t');
    AddedToTable(final, resolved, t', t'');
    SettledAccounts(final, reserved, resolved, trace, t, t', t'', exact);
  }

  /** One reference left as it is, to a definition in progress or to none at all; or no reference. */
  lemma LeftAccounts(name: string, t: Tables, exact: bool)
    ensures Accounts({name}, Trace({name}, {}, {}), t, t, exact)
    ensures Accounts({name}, Trace({}, {}, {name}), t, t, exact)
    ensures Accounts({}, NOTHING, t, t, exact)
  {
  }

  /** Reserving a name finishes nothing. */
  lemma ReservedAccounts(refs: set<string>, trace: Trace, reserved: string, target: Node,
                         t: Tables, t': Tables, exact: bool)
    requires reserved !in t.defs && Accounts(refs, trace, Reserve(reserved, target, t), t', exact)
    ensures Accounts(refs, trace, t, t', exact)
  {
    assert Done(Reserve(reserved, target, t)) == Done(t);
  }

  lemma {:induction false} ResolveAccounts(nodes: set<Node>, name: string, target: Node, scopes: seq<Scope>, t: Tables)
    requires Closed(nodes) && target in nodes && target != NLeaf(Null) && ScopesIn(scopes, nodes)
    requires Consistent(t) && TidyBodies(t)
    ensures var (final, t') := ResolveNamed(nodes, name, target, scopes, t);
            Accounts({final}, TraceResolve(nodes, name, target, scopes, t), t, t', Dictionaries(nodes))
    decreases |nodes - t.open.Keys|, 0
  {
    hide Walk, TraceWalk, Settle, Settled, Accounts, UniqueName;
    if target in t.open {
      LeftAccounts(t.open[target], t, Dictionaries(nodes));
    } else {
      var reserved := UniqueName(name, t.defs.Keys);
      var during := Reserve(reserved, target, t);
      ReserveOpens(nodes, reserved, target, t);
      ReserveKeeps(reserved, target, t);
      var (resolved, t') := Walk(nodes, target, scopes, false, during);
      var trace := TraceWalk(nodes, target, scopes, during);
      WalkKeeps(nodes, target, scopes, false, during);
      WalkAccounts(nodes, target, scopes, false, during);
      KeptTrans(t, during, t');
      ReservedAccounts(Refs(resolved), trace, reserved, target, t, t', Dictionaries(nodes));
      SettleAccounts(reserved, target, resolved, trace, t, t', Dictionaries(nodes));
    }
  }

  lemma {:induction false} WalkAccounts(nodes: set<Node>, node: Node, scopes: seq<Scope>, wrap: bool, t: Tables)
    requires Closed(nodes) && node in nodes && ScopesIn(scopes, nodes)
    requires Consistent(t) && TidyBodies(t)
    ensures var (value, t') := Walk(nodes, node, scopes, wrap, t);
            Accounts(Refs(value), TraceWalk(nodes, node, scopes, t), t, t', Dictionaries(nodes))
    decreases |nodes - t.open.Keys|, 1, node, 1
  {
    match node
    case NLeaf(_) =>
    case NArr(_, elements) =>
      WalkItemsAccounts(nodes, elements, scopes, t);
    case NObj(_, members) =>
      if NodeRef(members).Some? {
        WalkRefAccounts(nodes, node, scopes, wrap, t);
      } else {
        WalkPlainAccounts(nodes, node, scopes, wrap, t);
      }
  }

  lemma {:induction false} WalkRefAccounts(nodes: set<Node>, node: Node, scopes: seq<Scope>, wrap: bool, t: Tables)
    requires Closed(nodes) && node in nodes && ScopesIn(scopes, nodes)
    requires Consistent(t) && TidyBodies(t)
    requires node.NObj? && NodeRef(node.members).Some?
    ensures var (value, t') := Walk(nodes, node, scopes, wrap, t);
            Accounts(Refs(value), TraceWalk(nodes, node, scopes, t), t, t', Dictionaries(nodes))
    decreases |nodes - t.open.Keys|, 1, node, 0
  {
    hide WalkMembers, ResolveNamed, TraceMembers, TraceResolve, Accounts, Both, Kept;
    var inner, name, skip := Enter(scopes, node.members), NodeRef(node.members).value, {"$ref", "$defs"};
    EnterIn(scopes, node, nodes);
    LookupIn(inner, name, nodes);
    var (overrides, t') := WalkMembers(nodes, node.members, skip, inner, t);
    var trace := TraceMembers(nodes, node.members, skip, inner, t);
    WalkMembersKeeps(nodes, node.members, skip, inner, t);
    WalkMembersAccounts(nodes, node.members, skip, inner, t);
    match Lookup(inner, name)
    case None =>
      RefsOfRef(overrides, name);
      LeftAccounts(name, t', Dictionaries(nodes));
      AccountsInTurn(FieldRefs(overrides), trace, {name}, Trace({}, {}, {name}), t, t', t', Dictionaries(nodes));
    case Some(target) =>
      var (final, t'') := ResolveNamed(nodes, name, target, inner, t');
      ResolveKeeps(nodes, name, target, inner, t');
      ResolveAccounts(nodes, name, target, inner, t');
      RefsOfRef(overrides, final);
      AccountsInTurn(FieldRefs(overrides), trace, {final}, TraceResolve(nodes, name, target, inner, t'), t, t', t'',
                     Dictionaries(nodes));
  }

  lemma {:induction false} WalkPlainAccounts(nodes: set<Node>, node: Node, scopes: seq<Scope>, wrap: bool, t: Tables)
    requires Closed(nodes) && node in nodes && ScopesIn(scopes, nodes)
    requires Consistent(t) && TidyBodies(t)
    requires node.NObj? && NodeRef(node.members).None?
    ensures var (value, t') := Walk(nodes, node, scopes, wrap, t);
            Accounts(Refs(value), TraceWalk(nodes, node, scopes, t), t, t', Dictionaries(nodes))
    decreases |nodes - t.open.Keys|, 1, node, 0
  {
    var inner, skip := Enter(scopes, node.members), {"$defs"};
    EnterIn(scopes, node, nodes);
    var (fields, t') := WalkMembers(nodes, node.members, skip, inner, t);
    WalkMembersKeeps(nodes, node.members, skip, inner, t);
    WalkMembersAccounts(nodes, node.members, skip, inner, t);
    WalkedRef(nodes, node.members, skip, inner, t);
    if wrap && HoistedTitle(fields).Some? {
      var title, trace := HoistedTitle(fields).value, TraceMembers(nodes, node.members, skip, inner, t);
      RegisterAccounts(title, fields, trace, t, t', Dictionaries(nodes));
      RefsOfBareRef(Register(title, Obj(fields), t').0);
    }
  }

  lemma {:induction false} WalkItemsAccounts(nodes: set<Node>, elements: seq<Node>, scopes: seq<Scope>, t: Tables)
    requires Closed(nodes) && (forall e | e in elements :: e in nodes) && ScopesIn(scopes, nodes)
    requires Consistent(t) && TidyBodies(t)
    ensures var (items, t') := WalkItems(nodes, elements, scopes, t);
            Accounts(Refs(Arr(items)), TraceItems(nodes, elements, scopes, t), t, t', Dictionaries(nodes))
    decreases |nodes - t.open.Keys|, 1, elements
  {
    if elements != [] {
      var (first, t') := Walk(nodes, elements[0], scopes, true, t);
      var (rest, t'') := WalkItems(nodes, elements[1..], scopes, t');
      WalkKeeps(nodes, elements[0], scopes, true, t);
      WalkItemsKeeps(nodes, elements[1..], scopes, t');
      WalkAccounts(nodes, elements[0], scopes, true, t);
      WalkItemsAccounts(nodes, elements[1..], scopes, t');
      AccountsInTurn(Refs(first), TraceWalk(nodes, elements[0], scopes, t),
                     Refs(Arr(rest)), TraceItems(nodes, elements[1..], scopes, t'), t, t', t'', Dictionaries(nodes));
      RefsOfItems(first, rest);
    }
  }

  /** The keys written are among those read. */
  lemma {:induction false} WalkedKeys(nodes: set<Node>, members: seq<Member>, skip: set<string>,
                                      scopes: seq<Scope>, t: Tables)
    requires Closed(nodes) && MembersIn(members, nodes) && ScopesIn(scopes, nodes)
    ensures forall k | k in WalkMembers(nodes, members, skip, scopes, t).0 ::
              exists i :: 0 <= i < |members| && members[i].key == k
    decreases |members|
  {
    if members != [] {
      var t' := if members[0].key in skip then t else Walk(nodes, members[0].value, scopes, true, t).1;
      WalkedKeys(nodes, members[1..], skip, scopes, t');
      assert forall i | 0 <= i < |members[1..]| :: members[1..][i] == members[i + 1];
    }
  }

  /** One member more. */
  lemma MemberAccounts(key: string, first: Value, p: Trace, rest: map<string, Value>, q: Trace,
                       t: Tables, t': Tables, t'': Tables, exact: bool)
    requires Accounts(Refs(first), p, t, t', exact) && Accounts(FieldRefs(rest), q, t', t'', exact) && Grows(t', t'')
    requires exact ==> key !in rest
    ensures Accounts(FieldRefs(rest[key := first]), Both(p, q), t, t'', exact)
  {
    AccountsInTurn(Refs(first), p, FieldRefs(rest), q, t, t', t'', exact);
    FieldRefsAdded(rest, key, first);
  }

  lemma {:induction false} WalkMembersAccounts(nodes: set<Node>, members: seq<Member>, skip: set<string>,
                                               scopes: seq<Scope>, t: Tables)
    requires Closed(nodes) && MembersIn(members, nodes) && ScopesIn(scopes, nodes)
    requires Consistent(t) && TidyBodies(t) && (Dictionaries(nodes) ==> DistinctKeys(members))
    ensures var (fields, t') := WalkMembers(nodes, members, skip, scopes, t);
            Accounts(FieldRefs(fields), TraceMembers(nodes, members, skip, scopes, t), t, t', Dictionaries(nodes))
    decreases |nodes - t.open.Keys|, 1, members
  {
    hide Walk, TraceWalk, Both, Accounts;
    if members == [] {
      LeftAccounts("", t, Dictionaries(nodes));
      assert FieldRefs(map[]) == {};
    } else if members[0].key in skip {
      WalkMembersAccounts(nodes, members[1..], skip, scopes, t);
    } else {
      var (first, t') := Walk(nodes, members[0].value, scopes, true, t);
      var (rest, t'') := WalkMembers(nodes, members[1..], skip, scopes, t');
      WalkKeeps(nodes, members[0].value, scopes, true, t);
      WalkMembersKeeps(nodes, members[1..], skip, scopes, t');
      WalkAccounts(nodes, members[0].value, scopes, true, t);
      WalkMembersAccounts(nodes, members[1..], skip, scopes, t');
      WalkedKeys(nodes, members[1..], skip, scopes, t');
      MemberAccounts(members[0].key, first, TraceWalk(nodes, members[0].value, scopes, t),
                     rest, TraceMembers(nodes, members[1..], skip, scopes, t'), t, t', t'', Dictionaries(nodes));
    }
  }

  // A schema that can be inlined leaves no trace: it has no circular reference and no missing one.

  lemma {:induction false} ResolveLeavesNoTrace(nodes: set<Node>, name: string, target: Node,
                                                scopes: seq<Scope>, t: Tables)
    requires Closed(nodes) && target in nodes && ScopesIn(scopes, nodes)
    requires target !in t.open && Inline(nodes, target, scopes, t.open.Keys + {target}).Some?
    ensures TraceResolve(nodes, name, target, scopes, t) == NOTHING
    decreases |nodes - t.open.Keys|, 0
  {
    hide Walk, TraceWalk, Settle, Inline, UniqueName;
    var reserved := UniqueName(name, t.defs.Keys);
    ReserveOpens(nodes, reserved, target, t);
    NoTrace(nodes, target, scopes, Reserve(reserved, target, t));
  }

  lemma {:induction false} NoTrace(nodes: set<Node>, node: Node, scopes: seq<Scope>, t: Tables)
    requires Closed(nodes) && node in nodes && ScopesIn(scopes, nodes)
    requires Inline(nodes, node, scopes, t.open.Keys).Some?
    ensures TraceWalk(nodes, node, scopes, t) == NOTHING
    decreases |nodes - t.open.Keys|, 1, node, 1
  {
    match node
    case NLeaf(_) =>
    case NArr(_, elements) =>
      ItemsLeaveNoTrace(nodes, elements, scopes, t);
    case NObj(_, members) =>
      EnterIn(scopes, node, nodes);
      if NodeRef(members).Some? {
        RefLeavesNoTrace(nodes, node, scopes, t);
      } else {
        MembersLeaveNoTrace(nodes, members, {"$defs"}, Enter(scopes, members), t);
      }
  }

  lemma {:induction false} RefLeavesNoTrace(nodes: set<Node>, node: Node, scopes: seq<Scope>, t: Tables)
    requires Closed(nodes) && node in nodes && ScopesIn(scopes, nodes)
    requires node.NObj? && NodeRef(node.members).Some? && Inline(nodes, node, scopes, t.open.Keys).Some?
    ensures TraceWalk(nodes, node, scopes, t) == NOTHING
    decreases |nodes - t.open.Keys|, 1, node, 0
  {
    hide WalkMembers, TraceMembers, TraceResolve, InlineMembers;
    var inner, name, skip := Enter(scopes, node.members), NodeRef(node.members).value, {"$ref", "$defs"};
    EnterIn(scopes, node, nodes);
    LookupIn(inner, name, nodes);
    MembersLeaveNoTrace(nodes, node.members, skip, inner, t);
    var t' := WalkMembers(nodes, node.members, skip, inner, t).1;
    ResolveLeavesNoTrace(nodes, name, Lookup(inner, name).value, inner, t');
  }

  lemma {:induction false} ItemsLeaveNoTrace(nodes: set<Node>, elements: seq<Node>, scopes: seq<Scope>, t: Tables)
    requires Closed(nodes) && (forall e | e in elements :: e in nodes) && ScopesIn(scopes, nodes)
    requires InlineItems(nodes, elements, scopes, t.open.Keys).Some?
    ensures TraceItems(nodes, elements, scopes, t) == NOTHING
    decreases |nodes - t.open.Keys|, 1, elements
  {
    hide Walk, TraceWalk, Inline;
    if elements != [] {
      NoTrace(nodes, elements[0], scopes, t);
      ItemsLeaveNoTrace(nodes, elements[1..], scopes, Walk(nodes, elements[0], scopes, true, t).1);
    }
  }

  lemma {:induction false} MembersLeaveNoTrace(nodes: set<Node>, members: seq<Member>, skip: set<string>,
                                               scopes: seq<Scope>, t: Tables)
    requires Closed(nodes) && MembersIn(members, nodes) && ScopesIn(scopes, nodes)
    requires InlineMembers(nodes, members, skip, scopes, t.open.Keys).Some?
    ensures TraceMembers(nodes, members, skip, scopes, t) == NOTHING
    decreases |nodes - t.open.Keys|, 1, members
  {
    hide Walk, TraceWalk, Inline;
    if members == [] {
    } else if members[0].key in skip {
      MembersLeaveNoTrace(nodes, members[1..], skip, scopes, t);
    } else {
      NoTrace(nodes, members[0].value, scopes, t);
      MembersLeaveNoTrace(nodes, members[1..], skip, scopes, Walk(nodes, members[0].value, scopes, true, t).1);
    }
  }
}
