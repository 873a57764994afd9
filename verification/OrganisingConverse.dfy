/**
  The other direction: what the walk writes has a meaning only where what it read had one,
  unless a name that was withdrawn or missing is captured by a definition.
 */
module OrganisingConverse {
  import opened Wrappers
  import opened Json
  import opened Inlining
  import opened Organising
  import opened OrganisingTables
  import opened OrganisingMeaning
  import opened Tracing
  import opened OrganisingUnfolds

  /** No definition has a name that was withdrawn or missing; one in progress is still being expanded. */
  ghost predicate Uncaptured(trace: Trace, defs: map<string, Value>, open: set<string>) {
    && trace.withdrawn !! defs.Keys && trace.missing !! defs.Keys
    && forall n | n in trace.handed && n in defs :: n in open
  }

  lemma UncapturedParts(a: Trace, b: Trace, defs: map<string, Value>, open: set<string>)
    requires Uncaptured(Both(a, b), defs, open)
    ensures Uncaptured(a, defs, open) && Uncaptured(b, defs, open)
  {
    var c := Both(a, b);
    assert a.withdrawn <= c.withdrawn && b.withdrawn <= c.withdrawn && a.missing <= c.missing && b.missing <= c.missing;
  }

  lemma UncapturedInside(trace: Trace, reserved: string, final: string, defs: map<string, Value>, open: set<string>)
    requires Uncaptured(Settled(trace, reserved, final != reserved), defs, open)
    ensures Uncaptured(trace, defs, open + {final})
  {
    var outside := Settled(trace, reserved, final != reserved);
    assert trace.withdrawn <= outside.withdrawn;
    assert reserved in trace.handed && final != reserved ==> reserved in outside.withdrawn;
  }

  lemma UncapturedDeeper(trace: Trace, defs: map<string, Value>, open: set<string>, name: string)
    requires Uncaptured(trace, defs, open)
    ensures Uncaptured(trace, defs, open + {name})
  {
  }

  /** What a reference that expands tells of its parts. */
  lemma ExpandedRef(overrides: map<string, Value>, name: string, defs: map<string, Value>, open: set<string>)
    requires "$ref" !in overrides && "$defs" !in overrides
    requires InlineLocalRefs(Obj(overrides["$ref" := RefTo(name)]), defs, open).Some?
    ensures name in defs && name !in open && InlineLocalRefs(defs[name], defs, open + {name}).Some?
    ensures forall k | k in overrides :: InlineLocalRefs(overrides[k], defs, open).Some?
  {
    var value := Obj(overrides["$ref" := RefTo(name)]);
    assert ValueRef(value.fields) == Some(name);
    assert InlineOwn(value, defs, open).Some?;
    forall k | k in overrides ensures InlineLocalRefs(overrides[k], defs, open).Some? {
      assert IsOwn(value.fields, k) && value.fields[k] == overrides[k];
    }
  }

  lemma ExpandedBareRef(name: string, defs: map<string, Value>, open: set<string>)
    requires InlineLocalRefs(Obj(map["$ref" := RefTo(name)]), defs, open).Some?
    ensures name in defs && InlineLocalRefs(defs[name], defs, open + {name}).Some?
  {
    var none: map<string, Value> := map[];
    assert none["$ref" := RefTo(name)] == map["$ref" := RefTo(name)];
    ExpandedRef(none, name, defs, open);
  }

  lemma ExpandedPlain(fields: map<string, Value>, defs: map<string, Value>, open: set<string>)
    requires ValueRef(fields).None? && "$defs" !in fields && InlineLocalRefs(Obj(fields), defs, open).Some?
    ensures forall k | k in fields :: InlineLocalRefs(fields[k], defs, open).Some?
  {
    var value := Obj(fields);
    assert InlineOwn(value, defs, open).Some?;
    forall k | k in fields ensures InlineLocalRefs(fields[k], defs, open).Some? {
      assert IsOwn(value.fields, k) && value.fields[k] == fields[k];
    }
  }

  /** A definition that expands under the name it was given was not in progress, and could be inlined. */
  lemma {:induction false} ResolveExpanded(nodes: set<Node>, name: string, target: Node, scopes: seq<Scope>, t: Tables,
                                           defs: map<string, Value>, open: set<string>)
    requires Closed(nodes) && target in nodes && target != NLeaf(Null) && ScopesIn(scopes, nodes)
    requires Consistent(t) && TidyBodies(t) && Dictionaries(nodes)
    requires Holds(defs, ResolveNamed(nodes, name, target, scopes, t).1)
    requires Uncaptured(TraceResolve(nodes, name, target, scopes, t), defs, open)
    requires var final := ResolveNamed(nodes, name, target, scopes, t).0;
             final in defs && final !in open && InlineLocalRefs(defs[final], defs, open + {final}).Some?
    ensures target !in t.open && Inline(nodes, target, scopes, t.open.Keys + {target}).Some?
    decreases |nodes - t.open.Keys|, 0
  {
    if target !in t.open {
      hide ResolveNamed, TraceResolve, Walk, TraceWalk, Settled, Inline, Consistent;
      var reserved, during, final := EnteredParts(nodes, name, target, scopes, t);
      assert during.open.Keys == t.open.Keys + {target};
      FewerLeft(nodes, t.open.Keys, target);
      HoldsEarlier(defs, Walk(nodes, target, scopes, false, during).1, ResolveNamed(nodes, name, target, scopes, t).1);
      UncapturedInside(TraceWalk(nodes, target, scopes, during), reserved, final, defs, open);
      WalkExpanded(nodes, target, scopes, false, during, defs, open + {final});
    }
  }

  lemma {:induction false} WalkExpanded(nodes: set<Node>, node: Node, scopes: seq<Scope>, wrap: bool, t: Tables,
                                        defs: map<string, Value>, open: set<string>)
    requires Closed(nodes) && node in nodes && ScopesIn(scopes, nodes)
    requires Consistent(t) && TidyBodies(t) && Dictionaries(nodes)
    requires Holds(defs, Walk(nodes, node, scopes, wrap, t).1)
    requires Uncaptured(TraceWalk(nodes, node, scopes, t), defs, open)
    requires InlineLocalRefs(Walk(nodes, node, scopes, wrap, t).0, defs, open).Some?
    ensures Inline(nodes, node, scopes, t.open.Keys).Some?
    decreases |nodes - t.open.Keys|, 1, node, 1
  {
    match node
    case NLeaf(_) =>
    case NArr(_, elements) =>
      WalkItemsExpanded(nodes, elements, scopes, t, defs, open);
    case NObj(_, members) =>
      if NodeRef(members).Some? {
        WalkRefExpanded(nodes, node, scopes, wrap, t, defs, open);
      } else {
        WalkPlainExpanded(nodes, node, scopes, wrap, t, defs, open);
      }
  }

  lemma {:induction false} WalkRefExpanded(nodes: set<Node>, node: Node, scopes: seq<Scope>, wrap: bool, t: Tables,
                                           defs: map<string, Value>, open: set<string>)
    requires Closed(nodes) && node in nodes && ScopesIn(scopes, nodes)
    requires Consistent(t) && TidyBodies(t) && Dictionaries(nodes)
    requires node.NObj? && NodeRef(node.members).Some?
    requires Holds(defs, Walk(nodes, node, scopes, wrap, t).1)
    requires Uncaptured(TraceWalk(nodes, node, scopes, t), defs, open)
    requires InlineLocalRefs(Walk(nodes, node, scopes, wrap, t).0, defs, open).Some?
    ensures Inline(nodes, node, scopes, t.open.Keys).Some?
    decreases |nodes - t.open.Keys|, 1, node, 0
  {
    hide WalkMembers, ResolveNamed, TraceMembers, TraceResolve, Both, InlineLocalRefs, InlineMembers, Uncaptured, Kept;
    var inner, name, skip := Enter(scopes, node.members), NodeRef(node.members).value, {"$ref", "$defs"};
    EnterIn(scopes, node, nodes);
    LookupIn(inner, name, nodes);
    var (overrides, t') := WalkMembers(nodes, node.members, skip, inner, t);
    var trace := TraceMembers(nodes, node.members, skip, inner, t);
    WalkMembersKeeps(nodes, node.members, skip, inner, t);
    match Lookup(inner, name)
    case None =>
      UncapturedParts(trace, Trace({}, {}, {name}), defs, open);
      ExpandedRef(overrides, name, defs, open);
    case Some(target) =>
      var (final, t'') := ResolveNamed(nodes, name, target, inner, t');
      assert Consistent(t') && TidyBodies(t') by { KeptIsConsistent(t, t'); }
      ResolveKeeps(nodes, name, target, inner, t');
      assert Grows(t', t'') by { KeptIsConsistent(t', t''); }
      HoldsEarlier(defs, t', t'');
      UncapturedParts(trace, TraceResolve(nodes, name, target, inner, t'), defs, open);
      ExpandedRef(overrides, final, defs, open);
      ResolveExpanded(nodes, name, target, inner, t', defs, open);
      WalkMembersExpanded(nodes, node.members, skip, inner, t, defs, open);
  }

  lemma KeptIsConsistent(t: Tables, t': Tables)
    requires Kept(t, t')
    ensures Consistent(t') && TidyBodies(t') && Grows(t, t')
  {
  }

  lemma {:induction false} WalkPlainExpanded(nodes: set<Node>, node: Node, scopes: seq<Scope>, wrap: bool, t: Tables,
                                             defs: map<string, Value>, open: set<string>)
    requires Closed(nodes) && node in nodes && ScopesIn(scopes, nodes)
    requires Consistent(t) && TidyBodies(t) && Dictionaries(nodes)
    requires node.NObj? && NodeRef(node.members).None?
    requires Holds(defs, Walk(nodes, node, scopes, wrap, t).1)
    requires Uncaptured(TraceWalk(nodes, node, scopes, t), defs, open)
    requires InlineLocalRefs(Walk(nodes, node, scopes, wrap, t).0, defs, open).Some?
    ensures Inline(nodes, node, scopes, t.open.Keys).Some?
    decreases |nodes - t.open.Keys|, 1, node, 0
  {
    hide WalkMembers, TraceMembers, InlineLocalRefs, InlineMembers, HoistedTitle, Register, Holds, Uncaptured;
    var inner, skip := Enter(scopes, node.members), {"$defs"};
    EnterIn(scopes, node, nodes);
    var (fields, t') := WalkMembers(nodes, node.members, skip, inner, t);
    WalkMembersKeeps(nodes, node.members, skip, inner, t);
    WalkedRef(nodes, node.members, skip, inner, t);
    if wrap && HoistedTitle(fields).Some? {
      var name := RegisteredName(HoistedTitle(fields).value, fields, t', defs);
      ExpandedBareRef(name, defs, open);
      ExpandedPlain(fields, defs, open + {name});
      UncapturedDeeper(TraceMembers(nodes, node.members, skip, inner, t), defs, open, name);
      WalkMembersExpanded(nodes, node.members, skip, inner, t, defs, open + {name});
    } else {
      ExpandedPlain(fields, defs, open);
      WalkMembersExpanded(nodes, node.members, skip, inner, t, defs, open);
    }
  }

  lemma {:induction false} WalkItemsExpanded(nodes: set<Node>, elements: seq<Node>, scopes: seq<Scope>, t: Tables,
                                             defs: map<string, Value>, open: set<string>)
    requires Closed(nodes) && (forall e | e in elements :: e in nodes) && ScopesIn(scopes, nodes)
    requires Consistent(t) && TidyBodies(t) && Dictionaries(nodes)
    requires Holds(defs, WalkItems(nodes, elements, scopes, t).1)
    requires Uncaptured(TraceItems(nodes, elements, scopes, t), defs, open)
    requires forall v | v in WalkItems(nodes, elements, scopes, t).0 :: InlineLocalRefs(v, defs, open).Some?
    ensures InlineItems(nodes, elements, scopes, t.open.Keys).Some?
    decreases |nodes - t.open.Keys|, 1, elements
  {
    hide Walk, TraceWalk, Both, Inline, InlineLocalRefs, Uncaptured;
    if elements != [] {
      var (first, t') := Walk(nodes, elements[0], scopes, true, t);
      var (rest, t'') := WalkItems(nodes, elements[1..], scopes, t');
      WalkKeeps(nodes, elements[0], scopes, true, t);
      WalkItemsKeeps(nodes, elements[1..], scopes, t');
      HoldsEarlier(defs, t', t'');
      UncapturedParts(TraceWalk(nodes, elements[0], scopes, t),
                      TraceItems(nodes, elements[1..], scopes, t'), defs, open);
      WalkExpanded(nodes, elements[0], scopes, true, t, defs, open);
      WalkItemsExpanded(nodes, elements[1..], scopes, t', defs, open);
    }
  }

  lemma DistinctRest(members: seq<Member>)
    requires members != [] && DistinctKeys(members)
    ensures DistinctKeys(members[1..]) && forall i | 0 <= i < |members[1..]| :: members[1..][i].key != members[0].key
  {
  }

  /** One member more. */
  lemma MemberExpanded(key: string, first: Value, rest: map<string, Value>, defs: map<string, Value>, open: set<string>)
    requires key !in rest
    requires var fields := rest[key := first]; forall k | k in fields :: InlineLocalRefs(fields[k], defs, open).Some?
    ensures InlineLocalRefs(first, defs, open).Some?
    ensures forall k | k in rest :: InlineLocalRefs(rest[k], defs, open).Some?
  {
    hide InlineLocalRefs;
    var fields := rest[key := first];
    assert key in fields && fields[key] == first;
    assert forall k | k in rest :: k in fields && fields[k] == rest[k];
  }

  lemma {:induction false} WalkMembersExpanded(nodes: set<Node>, members: seq<Member>, skip: set<string>,
                                               scopes: seq<Scope>, t: Tables,
                                               defs: map<string, Value>, open: set<string>)
    requires Closed(nodes) && MembersIn(members, nodes) && ScopesIn(scopes, nodes)
    requires Consistent(t) && TidyBodies(t) && Dictionaries(nodes) && DistinctKeys(members)
    requires Holds(defs, WalkMembers(nodes, members, skip, scopes, t).1)
    requires Uncaptured(TraceMembers(nodes, members, skip, scopes, t), defs, open)
    requires var fields := WalkMembers(nodes, members, skip, scopes, t).0;
             forall k | k in fields :: InlineLocalRefs(fields[k], defs, open).Some?
    ensures InlineMembers(nodes, members, skip, scopes, t.open.Keys).Some?
    decreases |nodes - t.open.Keys|, 1, members
  {
    hide Walk, TraceWalk, Both, Inline, InlineLocalRefs, Uncaptured,
      Kept, Consistent, TidyBodies, Grows, Tidy, DistinctKeys;
    if members != [] {
      DistinctRest(members);
    }
    if members == [] {
    } else if members[0].key in skip {
      WalkMembersExpanded(nodes, members[1..], skip, scopes, t, defs, open);
    } else {
      var (first, t') := Walk(nodes, members[0].value, scopes, true, t);
      var (rest, t'') := WalkMembers(nodes, members[1..], skip, scopes, t');
      WalkKeeps(nodes, members[0].value, scopes, true, t);
      KeptIsConsistent(t, t');
      WalkMembersKeeps(nodes, members[1..], skip, scopes, t');
      KeptIsConsistent(t', t'');
      HoldsEarlier(defs, t', t'');
      WalkedKeys(nodes, members[1..], skip, scopes, t');
      MemberExpanded(members[0].key, first, rest, defs, open);
      UncapturedParts(TraceWalk(nodes, members[0].value, scopes, t),
                      TraceMembers(nodes, members[1..], skip, scopes, t'), defs, open);
      WalkExpanded(nodes, members[0].value, scopes, true, t, defs, open);
      WalkMembersExpanded(nodes, members[1..], skip, scopes, t', defs, open);
    }
  }
}
