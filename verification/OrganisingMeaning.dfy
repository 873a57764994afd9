/** What the walk preserves when every reference resolves and none leads in a circle. */
module OrganisingMeaning {
  import opened Wrappers
  import opened Json
  import opened Inlining
  import opened FreshNames
  import opened Organising
  import opened OrganisingTables

  /** Every finished definition expands, without coming back to itself. */
  ghost predicate Grounded(t: Tables) {
    forall n | n in Done(t) :: InlineLocalRefs(Done(t)[n], Done(t), {n}).Some?
  }

  ghost predicate Sound(t: Tables) {
    Consistent(t) && TidyBodies(t) && Grounded(t)
  }

  /** What a value means against the definitions finished so far. */
  ghost function Meaning(value: Value, t: Tables): Option<Value> {
    InlineLocalRefs(value, Done(t), {})
  }

  lemma MeaningGrows(value: Value, t: Tables, t': Tables)
    requires Grows(t, t') && Meaning(value, t).Some?
    ensures Meaning(value, t') == Meaning(value, t)
  {
    InlineCovered(value, Done(t), {}, Done(t'), {});
  }

  /** Finishing a body under a name not in use leaves every definition grounded. */
  lemma FinishSound(name: string, body: Value, t: Tables, t': Tables)
    requires Grounded(t) && name !in Done(t) && Meaning(body, t).Some?
    requires Done(t') == Done(t)[name := body]
    ensures Grounded(t')
    ensures InlineLocalRefs(body, Done(t'), {name}) == Meaning(body, t)
  {
    InlineCovered(body, Done(t), {}, Done(t'), {name});
    forall n | n in Done(t') ensures InlineLocalRefs(Done(t')[n], Done(t'), {n}).Some? {
      if n != name {
        InlineCovered(Done(t)[n], Done(t), {n}, Done(t'), {n});
      }
    }
  }

  /** A finished body means the same from inside its definition as from outside. */
  lemma FinishedMeaning(name: string, t: Tables)
    requires Grounded(t) && name in Done(t)
    ensures InlineLocalRefs(Done(t)[name], Done(t), {name}) == Meaning(Done(t)[name], t)
  {
    InlineCovered(Done(t)[name], Done(t), {name}, Done(t), {});
  }

  lemma RegisterMeans(preferred: string, fields: map<string, Value>, t: Tables)
    requires Sound(t) && TidyInside(Obj(fields)) && Meaning(Obj(fields), t).Some?
    ensures var (name, t') := Register(preferred, Obj(fields), t);
            Sound(t') && name in Done(t')
            && InlineLocalRefs(Done(t')[name], Done(t'), {name}) == Meaning(Obj(fields), t)
  {
    RegisterKeeps(preferred, fields, t);
    var (name, t') := Register(preferred, Obj(fields), t);
    if Obj(fields) in t.names {
      FinishedMeaning(name, t);
    } else {
      assert Done(t') == Done(t)[name := Obj(fields)];
      FinishSound(name, Obj(fields), t, t');
    }
  }

  lemma SettleMeans(reserved: string, target: Node, resolved: Value, t: Tables, t': Tables)
    requires Consistent(t) && reserved !in t.defs && target !in t.open
    requires Kept(t, t') && Grounded(t') && t'.open == t.open[target := reserved]
    requires TidyBody(resolved) && Meaning(resolved, t').Some?
    ensures var (final, t'') := Settle(reserved, target, resolved, t');
            Sound(t'') && Grows(t, t'') && final in Done(t'')
            && InlineLocalRefs(Done(t'')[final], Done(t''), {final}) == Meaning(resolved, t')
  {
    SettleKeeps(reserved, target, resolved, t, t');
    ReservedFreed(reserved, target, t, t'.open);
    assert t'.defs[reserved].None?;
    SettleDone(reserved, target, resolved, t');
    var (final, t'') := Settle(reserved, target, resolved, t');
    if resolved in t'.names {
      FinishedMeaning(final, t'');
    } else {
      FinishSound(reserved, resolved, t', t'');
    }
  }

  /** Handing the reserved name back changes no finished definition; using it adds one. */
  lemma SettleDone(reserved: string, target: Node, resolved: Value, t: Tables)
    requires reserved in t.defs && t.defs[reserved].None?
    requires resolved in t.names ==> t.names[resolved] != reserved
    ensures var t' := Settle(reserved, target, resolved, t).1;
            Done(t') == if resolved in t.names then Done(t) else Done(t)[reserved := resolved]
  {
  }

  lemma {:induction false} ResolveMeans(nodes: set<Node>, name: string, target: Node, scopes: seq<Scope>, t: Tables)
    requires Closed(nodes) && target in nodes && ScopesIn(scopes, nodes)
    requires Sound(t) && target !in t.open && target != NLeaf(Null)
    requires Inline(nodes, target, scopes, t.open.Keys + {target}).Some?
    ensures var (final, t') := ResolveNamed(nodes, name, target, scopes, t);
            Sound(t') && Grows(t, t') && final in Done(t')
            && InlineLocalRefs(Done(t')[final], Done(t'), {final})
               == Inline(nodes, target, scopes, t.open.Keys + {target})
    decreases |nodes - t.open.Keys|, 0
  {
    var reserved := UniqueName(name, t.defs.Keys);
    var during := Reserve(reserved, target, t);
    FewerLeft(nodes, t.open.Keys, target);
    ReserveMeans(reserved, target, t);
    var (resolved, t') := Walk(nodes, target, scopes, false, during);
    WalkMeans(nodes, target, scopes, false, during);
    WalkKeeps(nodes, target, scopes, false, during);
    KeptTrans(t, during, t');
    SettleMeans(reserved, target, resolved, t, t');
  }

  lemma ReserveMeans(reserved: string, target: Node, t: Tables)
    requires Sound(t) && reserved !in t.defs && target !in t.open
    ensures var during := Reserve(reserved, target, t);
            Sound(during) && Kept(t, during) && during.open.Keys == t.open.Keys + {target}
  {
    ReserveKeeps(reserved, target, t);
    assert Done(Reserve(reserved, target, t)) == Done(t);
  }

  lemma OwnIs(fields: map<string, Value>, own: map<string, Value>, defs: map<string, Value>)
    requires own.Keys <= fields.Keys && forall k :: IsOwn(fields, k) <==> k in own
    requires forall k | k in own :: InlineLocalRefs(fields[k], defs, {}) == Some(own[k])
    ensures InlineOwn(Obj(fields), defs, {}) == Some(own)
  {
    var value := Obj(fields);
    forall k | k in value.fields && IsOwn(value.fields, k)
      ensures InlineLocalRefs(value.fields[k], defs, {}) == Some(own[k])
    {
    }
    assert InlineOwn(value, defs, {}).value == own;
  }

  /** A reference with its overrides means what they mean laid over what it names. */
  lemma RefMeaning(overrides: map<string, Value>, own: map<string, Value>, name: string, base: Value, t: Tables)
    requires overrides.Keys == own.Keys && "$ref" !in own && "$defs" !in own
    requires forall k | k in overrides :: Meaning(overrides[k], t) == Some(own[k])
    requires name in Done(t) && InlineLocalRefs(Done(t)[name], Done(t), {name}) == Some(base)
    ensures Meaning(Obj(overrides["$ref" := RefTo(name)]), t) == Some(Overlay(base, own))
  {
    var fields := overrides["$ref" := RefTo(name)];
    assert ValueRef(fields) == Some(name);
    OwnIs(fields, own, Done(t));
    assert {} + {name} == {name};
  }

  lemma BareRefMeaning(name: string, base: Value, t: Tables)
    requires name in Done(t) && InlineLocalRefs(Done(t)[name], Done(t), {name}) == Some(base)
    ensures Meaning(Obj(map["$ref" := RefTo(name)]), t) == Some(base)
  {
    var none: map<string, Value> := map[];
    RefMeaning(none, none, name, base, t);
    assert none["$ref" := RefTo(name)] == map["$ref" := RefTo(name)];
    if base.Obj? {
      assert base.fields + none == base.fields;
    }
  }

  lemma PlainMeaning(fields: map<string, Value>, own: map<string, Value>, t: Tables)
    requires fields.Keys == own.Keys && "$defs" !in own && ValueRef(fields).None?
    requires forall k | k in fields :: Meaning(fields[k], t) == Some(own[k])
    ensures Meaning(Obj(fields), t) == Some(Obj(own))
  {
    OwnIs(fields, own, Done(t));
  }

  /** A hoisted object is replaced by a reference that means the same. */
  lemma HoistMeans(title: string, fields: map<string, Value>, own: map<string, Value>, t: Tables)
    requires Sound(t) && TidyInside(Obj(fields)) && Meaning(Obj(fields), t) == Some(Obj(own))
    ensures var (name, t') := Register(title, Obj(fields), t);
            Sound(t') && Meaning(Obj(map["$ref" := RefTo(name)]), t') == Some(Obj(own))
  {
    RegisterMeans(title, fields, t);
    var (name, t') := Register(title, Obj(fields), t);
    BareRefMeaning(name, Obj(own), t');
  }

  /** The walk turns an object into a reference only where it was one. */
  lemma {:induction false} WalkedRef(nodes: set<Node>, members: seq<Member>, skip: set<string>,
                                     scopes: seq<Scope>, t: Tables)
    requires Closed(nodes) && MembersIn(members, nodes) && ScopesIn(scopes, nodes)
    requires "$ref" !in skip
    ensures ValueRef(WalkMembers(nodes, members, skip, scopes, t).0) == NodeRef(members)
    decreases |nodes - t.open.Keys|, members
  {
    if members == [] {
    } else if members[0].key in skip {
      WalkedRef(nodes, members[1..], skip, scopes, t);
    } else {
      WalkedRef(nodes, members[1..], skip, scopes, Walk(nodes, members[0].value, scopes, true, t).1);
    }
  }

  lemma {:induction false} WalkMeans(nodes: set<Node>, node: Node, scopes: seq<Scope>, wrap: bool, t: Tables)
    requires Closed(nodes) && node in nodes && ScopesIn(scopes, nodes)
    requires Sound(t) && Inline(nodes, node, scopes, t.open.Keys).Some?
    ensures var (value, t') := Walk(nodes, node, scopes, wrap, t);
            Sound(t') && Meaning(value, t') == Inline(nodes, node, scopes, t.open.Keys)
    decreases |nodes - t.open.Keys|, 1, node, 1
  {
    match node
    case NLeaf(_) =>
    case NArr(_, elements) =>
      WalkItemsMeans(nodes, elements, scopes, t);
    case NObj(_, members) =>
      if NodeRef(members).Some? {
        WalkRefMeans(nodes, node, scopes, wrap, t);
      } else {
        WalkPlainMeans(nodes, node, scopes, wrap, t);
      }
  }

  lemma {:induction false} WalkRefMeans(nodes: set<Node>, node: Node, scopes: seq<Scope>, wrap: bool, t: Tables)
    requires Closed(nodes) && node in nodes && ScopesIn(scopes, nodes)
    requires Sound(t) && Inline(nodes, node, scopes, t.open.Keys).Some?
    requires node.NObj? && NodeRef(node.members).Some?
    ensures var (value, t') := Walk(nodes, node, scopes, wrap, t);
            Sound(t') && Meaning(value, t') == Inline(nodes, node, scopes, t.open.Keys)
    decreases |nodes - t.open.Keys|, 1, node, 0
  {
    var inner, name := Enter(scopes, node.members), NodeRef(node.members).value;
    EnterIn(scopes, node, nodes);
    LookupIn(inner, name, nodes);
    var target := Lookup(inner, name).value;
    var skip := {"$ref", "$defs"};
    var (overrides, t') := WalkMembers(nodes, node.members, skip, inner, t);
    var own := InlineMembers(nodes, node.members, skip, inner, t.open.Keys).value;
    WalkMembersMeans(nodes, node.members, skip, inner, t);
    var base := Inline(nodes, target, inner, t.open.Keys + {target}).value;
    ResolveMeans(nodes, name, target, inner, t');
    var (final, t'') := ResolveNamed(nodes, name, target, inner, t');
    forall k | k in overrides ensures Meaning(overrides[k], t'') == Some(own[k]) {
      MeaningGrows(overrides[k], t', t'');
    }
    RefMeaning(overrides, own, final, base, t'');
  }

  lemma {:induction false} WalkPlainMeans(nodes: set<Node>, node: Node, scopes: seq<Scope>, wrap: bool, t: Tables)
    requires Closed(nodes) && node in nodes && ScopesIn(scopes, nodes)
    requires Sound(t) && Inline(nodes, node, scopes, t.open.Keys).Some?
    requires node.NObj? && NodeRef(node.members).None?
    ensures var (value, t') := Walk(nodes, node, scopes, wrap, t);
            Sound(t') && Meaning(value, t') == Inline(nodes, node, scopes, t.open.Keys)
    decreases |nodes - t.open.Keys|, 1, node, 0
  {
    var inner, skip := Enter(scopes, node.members), {"$defs"};
    EnterIn(scopes, node, nodes);
    var (fields, t') := WalkMembers(nodes, node.members, skip, inner, t);
    var own := InlineMembers(nodes, node.members, skip, inner, t.open.Keys).value;
    WalkMembersMeans(nodes, node.members, skip, inner, t);
    WalkMembersKeeps(nodes, node.members, skip, inner, t);
    WalkedRef(nodes, node.members, skip, inner, t);
    PlainMeaning(fields, own, t');
    if wrap && HoistedTitle(fields).Some? {
      HoistMeans(HoistedTitle(fields).value, fields, own, t');
    }
  }

  lemma {:induction false} WalkItemsMeans(nodes: set<Node>, elements: seq<Node>, scopes: seq<Scope>, t: Tables)
    requires Closed(nodes) && (forall e | e in elements :: e in nodes) && ScopesIn(scopes, nodes)
    requires Sound(t) && InlineItems(nodes, elements, scopes, t.open.Keys).Some?
    ensures var (items, t') := WalkItems(nodes, elements, scopes, t);
            Sound(t') && Grows(t, t')
            && InlineEach(Arr(items), Done(t'), {}) == InlineItems(nodes, elements, scopes, t.open.Keys)
    decreases |nodes - t.open.Keys|, 1, elements
  {
    if elements == [] {
      assert InlineEach(Arr([]), Done(t), {}).value == [];
    } else {
      var (first, t') := Walk(nodes, elements[0], scopes, true, t);
      var (rest, t'') := WalkItems(nodes, elements[1..], scopes, t');
      WalkMeans(nodes, elements[0], scopes, true, t);
      WalkKeeps(nodes, elements[0], scopes, true, t);
      WalkItemsMeans(nodes, elements[1..], scopes, t');
      MeaningGrows(first, t', t'');
      EachCons(first, rest, Done(t''));
    }
  }

  lemma EachIs(items: seq<Value>, meanings: seq<Value>, defs: map<string, Value>)
    requires |items| == |meanings|
    requires forall i | 0 <= i < |items| :: InlineLocalRefs(items[i], defs, {}) == Some(meanings[i])
    ensures InlineEach(Arr(items), defs, {}) == Some(meanings)
  {
    var value := Arr(items);
    forall i | 0 <= i < |value.items| ensures InlineLocalRefs(value.items[i], defs, {}) == Some(meanings[i]) {
    }
    assert InlineEach(value, defs, {}).value == meanings;
  }

  lemma EachCons(first: Value, rest: seq<Value>, defs: map<string, Value>)
    requires InlineLocalRefs(first, defs, {}).Some? && InlineEach(Arr(rest), defs, {}).Some?
    ensures InlineEach(Arr([first] + rest), defs, {})
            == Some([InlineLocalRefs(first, defs, {}).value] + InlineEach(Arr(rest), defs, {}).value)
  {
    var meanings := [InlineLocalRefs(first, defs, {}).value] + InlineEach(Arr(rest), defs, {}).value;
    var all := [first] + rest;
    forall i | 0 <= i < |all| ensures InlineLocalRefs(all[i], defs, {}) == Some(meanings[i]) {
    }
    EachIs(all, meanings, defs);
  }

  lemma SoundIsConsistent(t: Tables)
    requires Sound(t)
    ensures Consistent(t) && TidyBodies(t)
  {
  }

  /** One member more. */
  lemma MemberMeans(key: string, first: Value, meaning: Value, rest: map<string, Value>, own: map<string, Value>,
                    t: Tables, t': Tables)
    requires Grows(t, t') && Meaning(first, t) == Some(meaning)
    requires rest.Keys == own.Keys && forall k | k in rest :: Meaning(rest[k], t') == Some(own[k])
    ensures var fields, own' := rest[key := first], own[key := meaning];
            fields.Keys == own'.Keys && forall k | k in fields :: Meaning(fields[k], t') == Some(own'[k])
  {
    MeaningGrows(first, t, t');
    hide Meaning;
  }

  lemma {:induction false} WalkMembersMeans(nodes: set<Node>, members: seq<Member>, skip: set<string>,
                                            scopes: seq<Scope>, t: Tables)
    requires Closed(nodes) && MembersIn(members, nodes) && ScopesIn(scopes, nodes)
    requires Sound(t) && InlineMembers(nodes, members, skip, scopes, t.open.Keys).Some?
    ensures var (fields, t') := WalkMembers(nodes, members, skip, scopes, t);
            var own := InlineMembers(nodes, members, skip, scopes, t.open.Keys).value;
            Sound(t') && Grows(t, t') && fields.Keys == own.Keys && fields.Keys !! skip
            && forall k | k in fields :: Meaning(fields[k], t') == Some(own[k])
    decreases |nodes - t.open.Keys|, 1, members
  {
    hide Walk, Inline, Meaning, Sound;
    if members == [] {
    } else if members[0].key in skip {
      WalkMembersMeans(nodes, members[1..], skip, scopes, t);
    } else {
      var (first, t') := Walk(nodes, members[0].value, scopes, true, t);
      var (rest, t'') := WalkMembers(nodes, members[1..], skip, scopes, t');
      assert Consistent(t) && TidyBodies(t) by { SoundIsConsistent(t); }
      WalkMeans(nodes, members[0].value, scopes, true, t);
      WalkKeeps(nodes, members[0].value, scopes, true, t);
      WalkMembersMeans(nodes, members[1..], skip, scopes, t');
      MemberMeans(members[0].key, first, Inline(nodes, members[0].value, scopes, t.open.Keys).value,
                  rest, InlineMembers(nodes, members[1..], skip, scopes, t.open.Keys).value, t', t'');
    }
  }
}
