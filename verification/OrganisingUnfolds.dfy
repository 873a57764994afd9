/**
  What the walk preserves on every schema, recursive ones included: as long as no name it
  handed out is withdrawn and no reference that leads nowhere is captured, the values it
  writes unfold to what it read, to any depth.
 */
module OrganisingUnfolds {
  import opened Wrappers
  import opened Json
  import opened Inlining
  import opened FreshNames
  import opened Organising
  import opened OrganisingTables
  import opened OrganisingMeaning
  import opened Tracing
  import opened Unfolding

  /** A table that holds every definition finished so far. */
  ghost predicate Holds(defs: map<string, Value>, t: Tables) {
    forall n | n in t.defs && t.defs[n].Some? :: n in defs && defs[n] == t.defs[n].value
  }

  /** The frames are those of the definitions in progress. */
  ghost predicate StackOf(stack: seq<Frame>, open: map<Node, string>) {
    && (forall i, j | 0 <= i < j < |stack| :: stack[i].target != stack[j].target)
    && (forall i | 0 <= i < |stack| :: stack[i].target in open)
    && (forall x | x in open :: exists i :: 0 <= i < |stack| && stack[i].target == x)
  }

  /** Down to `depth`, a name stands for the definition on top of the frames. */
  ghost predicate Stands(name: string, frames: seq<Frame>, defs: map<string, Value>, depth: nat)
    requires frames != []
  {
    && name in defs
    && forall e: nat | e < depth ::
         UnfoldValue(e, defs[name], defs)
         == Unfold(e, frames[|frames| - 1].target, frames[|frames| - 1].scopes, frames, false)
  }

  /**
    Nothing handed out was withdrawn, nothing missing is captured, and names in progress stand for
    what they should.
   */
  ghost predicate Faithful(trace: Trace, stack: seq<Frame>, open: map<Node, string>,
                           defs: map<string, Value>, depth: nat)
    requires StackOf(stack, open)
  {
    && trace.withdrawn == {} && trace.missing !! defs.Keys
    && forall i | 0 <= i < |stack| && open[stack[i].target] in trace.handed ::
         Stands(open[stack[i].target], stack[..i + 1], defs, depth)
  }

  lemma FaithfulParts(a: Trace, b: Trace, stack: seq<Frame>, open: map<Node, string>,
                      defs: map<string, Value>, depth: nat)
    requires StackOf(stack, open) && Faithful(Both(a, b), stack, open, defs, depth)
    ensures Faithful(a, stack, open, defs, depth) && Faithful(b, stack, open, defs, depth)
  {
    assert a.withdrawn <= Both(a, b).withdrawn && b.withdrawn <= Both(a, b).withdrawn;
  }

  lemma FaithfulShallower(trace: Trace, stack: seq<Frame>, open: map<Node, string>, defs: map<string, Value>,
                          depth: nat, shallower: nat)
    requires StackOf(stack, open) && Faithful(trace, stack, open, defs, depth) && shallower <= depth
    ensures Faithful(trace, stack, open, defs, shallower)
  {
  }

  lemma HoldsEarlier(defs: map<string, Value>, t: Tables, t': Tables)
    requires Holds(defs, t') && Grows(t, t')
    ensures Holds(defs, t)
  {
  }

  lemma {:induction false} EnclosingAt(stack: seq<Frame>, target: Node, i: nat)
    requires i < |stack| && stack[i].target == target
    requires forall j | i < j < |stack| :: stack[j].target != target
    ensures Enclosing(stack, target) == Some(stack[..i + 1])
  {
    if i < |stack| - 1 {
      EnclosingAt(stack[..|stack| - 1], target, i);
      assert stack[..|stack| - 1][..i + 1] == stack[..i + 1];
    } else {
      assert stack[..i + 1] == stack;
    }
  }

  lemma {:induction false} EnclosingNone(stack: seq<Frame>, target: Node)
    requires forall j | 0 <= j < |stack| :: stack[j].target != target
    ensures Enclosing(stack, target).None?
  {
    if stack != [] {
      EnclosingNone(stack[..|stack| - 1], target);
    }
  }

  lemma StackPushed(stack: seq<Frame>, open: map<Node, string>, target: Node, scopes: seq<Scope>, name: string)
    requires StackOf(stack, open) && target !in open
    ensures StackOf(stack + [Frame(target, scopes)], open[target := name])
  {
    var longer, more := stack + [Frame(target, scopes)], open[target := name];
    forall x | x in more ensures exists i :: 0 <= i < |longer| && longer[i].target == x {
      if x in open {
        var i :| 0 <= i < |stack| && stack[i].target == x;
        assert longer[i] == stack[i];
      } else {
        assert longer[|stack|].target == x;
      }
    }
  }

  /** Inside a definition, what was faithful outside is, if the reserved name stands for it when handed out. */
  lemma FaithfulInside(trace: Trace, reserved: string, merged: bool, target: Node, scopes: seq<Scope>,
                       stack: seq<Frame>, open: map<Node, string>, defs: map<string, Value>, depth: nat)
    requires StackOf(stack, open) && target !in open && reserved !in open.Values
    requires StackOf(stack + [Frame(target, scopes)], open[target := reserved])
    requires Faithful(Settled(trace, reserved, merged), stack, open, defs, depth)
    requires reserved in trace.handed && !merged ==> Stands(reserved, stack + [Frame(target, scopes)], defs, depth)
    ensures reserved in trace.handed ==> !merged
    ensures Faithful(trace, stack + [Frame(target, scopes)], open[target := reserved], defs, depth)
  {
    hide Stands;
    var longer, more := stack + [Frame(target, scopes)], open[target := reserved];
    assert trace.withdrawn <= Settled(trace, reserved, merged).withdrawn;
    assert reserved in trace.handed && merged ==> reserved in Settled(trace, reserved, merged).withdrawn;
    forall i | 0 <= i < |longer| && more[longer[i].target] in trace.handed
      ensures Stands(more[longer[i].target], longer[..i + 1], defs, depth)
    {
      if i < |stack| {
        assert longer[i] == stack[i] && longer[..i + 1] == stack[..i + 1];
        assert open[stack[i].target] in open.Values;
      } else {
        assert longer[..i + 1] == longer;
      }
    }
  }

  /** The name a reference is given stands for its target, in progress or not. */
  lemma {:induction false} ResolveUnfolds(nodes: set<Node>, name: string, target: Node, scopes: seq<Scope>, t: Tables,
                                          stack: seq<Frame>, defs: map<string, Value>, depth: nat)
    requires Closed(nodes) && target in nodes && target != NLeaf(Null) && ScopesIn(scopes, nodes)
    requires Consistent(t) && TidyBodies(t) && StackOf(stack, t.open)
    requires Holds(defs, ResolveNamed(nodes, name, target, scopes, t).1)
    requires Faithful(TraceResolve(nodes, name, target, scopes, t), stack, t.open, defs, depth)
    ensures Stands(ResolveNamed(nodes, name, target, scopes, t).0, Entered(stack, target, scopes), defs, depth)
    decreases depth, 1
  {
    if target in t.open {
      var i :| 0 <= i < |stack| && stack[i].target == target;
      EnclosingAt(stack, target, i);
    } else {
      EnclosingNone(stack, target);
      EnteredStands(nodes, name, target, scopes, t, stack, defs, depth);
    }
  }

  lemma StandsDeeper(name: string, frames: seq<Frame>, defs: map<string, Value>, depth: nat)
    requires frames != [] && name in defs
    requires depth > 0 ==>
               && Stands(name, frames, defs, depth - 1)
               && UnfoldValue(depth - 1, defs[name], defs)
                  == Unfold(depth - 1, frames[|frames| - 1].target, frames[|frames| - 1].scopes, frames, false)
    ensures Stands(name, frames, defs, depth)
  {
    hide UnfoldValue, Unfold;
  }

  /** A definition entered afresh, in parts: the name reserved, the walk, and what they settle on. */
  lemma EnteredParts(nodes: set<Node>, name: string, target: Node, scopes: seq<Scope>, t: Tables)
    returns (reserved: string, during: Tables, final: string)
    requires Closed(nodes) && target in nodes && target != NLeaf(Null) && ScopesIn(scopes, nodes)
    requires Consistent(t) && TidyBodies(t) && target !in t.open
    ensures Consistent(during) && TidyBodies(during)
    ensures during.open == t.open[target := reserved] && reserved !in t.open.Values
    ensures TraceResolve(nodes, name, target, scopes, t)
            == Settled(TraceWalk(nodes, target, scopes, during), reserved, final != reserved)
    ensures var (resolved, t') := Walk(nodes, target, scopes, false, during);
            var t'' := ResolveNamed(nodes, name, target, scopes, t).1;
            Grows(t', t'') && final in t''.defs && t''.defs[final] == Some(resolved)
    ensures final == ResolveNamed(nodes, name, target, scopes, t).0
  {
    hide Walk, TraceWalk, Settle, Settled, UniqueName;
    reserved := UniqueName(name, t.defs.Keys);
    during := Reserve(reserved, target, t);
    ReserveOpens(nodes, reserved, target, t);
    ReserveKeeps(reserved, target, t);
    var (resolved, t') := Walk(nodes, target, scopes, false, during);
    WalkKeeps(nodes, target, scopes, false, during);
    KeptTrans(t, during, t');
    SettleKeeps(reserved, target, resolved, t, t');
    final := Settle(reserved, target, resolved, t').0;
  }

  /** A definition entered afresh: shallower first, since it may refer to itself. */
  lemma {:induction false} EnteredStands(nodes: set<Node>, name: string, target: Node, scopes: seq<Scope>, t: Tables,
                                         stack: seq<Frame>, defs: map<string, Value>, depth: nat)
    requires Closed(nodes) && target in nodes && target != NLeaf(Null) && ScopesIn(scopes, nodes)
    requires Consistent(t) && TidyBodies(t) && StackOf(stack, t.open) && target !in t.open
    requires Holds(defs, ResolveNamed(nodes, name, target, scopes, t).1)
    requires Faithful(TraceResolve(nodes, name, target, scopes, t), stack, t.open, defs, depth)
    ensures Stands(ResolveNamed(nodes, name, target, scopes, t).0, stack + [Frame(target, scopes)], defs, depth)
    decreases depth, 0
  {
    hide ResolveNamed, TraceResolve, Walk, TraceWalk, Settled, Unfold, UnfoldValue,
      Stands, Faithful, StackOf, Consistent;
    var longer := stack + [Frame(target, scopes)];
    var reserved, during, final := EnteredParts(nodes, name, target, scopes, t);
    if depth > 0 {
      HoldsEarlier(defs, Walk(nodes, target, scopes, false, during).1, ResolveNamed(nodes, name, target, scopes, t).1);
      FaithfulShallower(TraceResolve(nodes, name, target, scopes, t), stack, t.open, defs, depth, depth - 1);
      EnteredStands(nodes, name, target, scopes, t, stack, defs, depth - 1);
      StackPushed(stack, t.open, target, scopes, reserved);
      FaithfulInside(TraceWalk(nodes, target, scopes, during), reserved, final != reserved, target, scopes,
                     stack, t.open, defs, depth - 1);
      WalkUnfolds(nodes, target, scopes, false, during, longer, defs, depth - 1);
    }
    StandsDeeper(final, longer, defs, depth);
  }

  /** What a walk writes unfolds to what it read. */
  lemma {:induction false} WalkUnfolds(nodes: set<Node>, node: Node, scopes: seq<Scope>, wrap: bool, t: Tables,
                                       stack: seq<Frame>, defs: map<string, Value>, depth: nat)
    requires Closed(nodes) && node in nodes && ScopesIn(scopes, nodes)
    requires Consistent(t) && TidyBodies(t) && StackOf(stack, t.open)
    requires Holds(defs, Walk(nodes, node, scopes, wrap, t).1)
    requires Faithful(TraceWalk(nodes, node, scopes, t), stack, t.open, defs, depth)
    ensures UnfoldValue(depth, Walk(nodes, node, scopes, wrap, t).0, defs) == Unfold(depth, node, scopes, stack, wrap)
    decreases depth, 3, node, 1
  {
    match node
    case NLeaf(_) =>
    case NArr(_, elements) =>
      WalkItemsUnfolds(nodes, elements, scopes, t, stack, defs, depth);
    case NObj(_, members) =>
      if NodeRef(members).Some? {
        WalkRefUnfolds(nodes, node, scopes, wrap, t, stack, defs, depth);
      } else {
        WalkPlainUnfolds(nodes, node, scopes, wrap, t, stack, defs, depth);
      }
  }

  lemma {:induction false} WalkRefUnfolds(nodes: set<Node>, node: Node, scopes: seq<Scope>, wrap: bool, t: Tables,
                                          stack: seq<Frame>, defs: map<string, Value>, depth: nat)
    requires Closed(nodes) && node in nodes && ScopesIn(scopes, nodes)
    requires Consistent(t) && TidyBodies(t) && StackOf(stack, t.open)
    requires node.NObj? && NodeRef(node.members).Some?
    requires Holds(defs, Walk(nodes, node, scopes, wrap, t).1)
    requires Faithful(TraceWalk(nodes, node, scopes, t), stack, t.open, defs, depth)
    ensures UnfoldValue(depth, Walk(nodes, node, scopes, wrap, t).0, defs) == Unfold(depth, node, scopes, stack, wrap)
    decreases depth, 3, node, 0
  {
    hide WalkMembers, ResolveNamed, TraceMembers, TraceResolve, Both, UnfoldValue, UnfoldMembers, Faithful, Entered;
    var inner, name, skip := Enter(scopes, node.members), NodeRef(node.members).value, {"$ref", "$defs"};
    EnterIn(scopes, node, nodes);
    LookupIn(inner, name, nodes);
    var (overrides, t') := WalkMembers(nodes, node.members, skip, inner, t);
    var own := UnfoldMembers(depth, node.members, skip, inner, stack);
    var trace := TraceMembers(nodes, node.members, skip, inner, t);
    WalkMembersKeeps(nodes, node.members, skip, inner, t);
    match Lookup(inner, name)
    case None =>
      FaithfulParts(trace, Trace({}, {}, {name}), stack, t.open, defs, depth);
      WalkMembersUnfolds(nodes, node.members, skip, inner, t, stack, defs, depth);
      UnfoldedRef(depth, overrides, own, name, defs);
    case Some(target) =>
      var (final, t'') := ResolveNamed(nodes, name, target, inner, t');
      FaithfulParts(trace, TraceResolve(nodes, name, target, inner, t'), stack, t.open, defs, depth);
      ResolveKeeps(nodes, name, target, inner, t');
      HoldsEarlier(defs, t', t'');
      WalkMembersUnfolds(nodes, node.members, skip, inner, t, stack, defs, depth);
      ReferenceUnfolds(nodes, name, target, inner, t', stack, defs, depth);
      UnfoldedRef(depth, overrides, own, final, defs);
  }

  /** One step into the definition a reference was given. */
  lemma {:induction false} ReferenceUnfolds(nodes: set<Node>, name: string, target: Node, scopes: seq<Scope>, t: Tables,
                                            stack: seq<Frame>, defs: map<string, Value>, depth: nat)
    requires Closed(nodes) && target in nodes && target != NLeaf(Null) && ScopesIn(scopes, nodes)
    requires Consistent(t) && TidyBodies(t) && StackOf(stack, t.open)
    requires Holds(defs, ResolveNamed(nodes, name, target, scopes, t).1)
    requires Faithful(TraceResolve(nodes, name, target, scopes, t), stack, t.open, defs, depth)
    ensures var final, into := ResolveNamed(nodes, name, target, scopes, t).0, Entered(stack, target, scopes);
            && final in defs
            && (depth > 0 ==> UnfoldValue(depth - 1, defs[final], defs)
                              == Unfold(depth - 1, target, into[|into| - 1].scopes, into, false))
    decreases depth, 2
  {
    ResolveUnfolds(nodes, name, target, scopes, t, stack, defs, depth);
  }

  lemma {:induction false} WalkItemsUnfolds(nodes: set<Node>, elements: seq<Node>, scopes: seq<Scope>, t: Tables,
                                            stack: seq<Frame>, defs: map<string, Value>, depth: nat)
    requires Closed(nodes) && (forall e | e in elements :: e in nodes) && ScopesIn(scopes, nodes)
    requires Consistent(t) && TidyBodies(t) && StackOf(stack, t.open)
    requires Holds(defs, WalkItems(nodes, elements, scopes, t).1)
    requires Faithful(TraceItems(nodes, elements, scopes, t), stack, t.open, defs, depth)
    ensures var items, own := WalkItems(nodes, elements, scopes, t).0, UnfoldItems(depth, elements, scopes, stack);
            |items| == |own| && forall i | 0 <= i < |items| :: UnfoldValue(depth, items[i], defs) == own[i]
    decreases depth, 3, elements
  {
    hide Walk, TraceWalk, Both, Faithful, Unfold, UnfoldValue;
    if elements != [] {
      var (first, t') := Walk(nodes, elements[0], scopes, true, t);
      var (rest, t'') := WalkItems(nodes, elements[1..], scopes, t');
      WalkKeeps(nodes, elements[0], scopes, true, t);
      WalkItemsKeeps(nodes, elements[1..], scopes, t');
      HoldsEarlier(defs, t', t'');
      FaithfulParts(TraceWalk(nodes, elements[0], scopes, t), TraceItems(nodes, elements[1..], scopes, t'),
                    stack, t.open, defs, depth);
      WalkUnfolds(nodes, elements[0], scopes, true, t, stack, defs, depth);
      WalkItemsUnfolds(nodes, elements[1..], scopes, t', stack, defs, depth);
    }
  }

  lemma {:induction false} WalkMembersUnfolds(nodes: set<Node>, members: seq<Member>, skip: set<string>,
                                              scopes: seq<Scope>, t: Tables,
                                              stack: seq<Frame>, defs: map<string, Value>, depth: nat)
    requires Closed(nodes) && MembersIn(members, nodes) && ScopesIn(scopes, nodes)
    requires Consistent(t) && TidyBodies(t) && StackOf(stack, t.open)
    requires Holds(defs, WalkMembers(nodes, members, skip, scopes, t).1)
    requires Faithful(TraceMembers(nodes, members, skip, scopes, t), stack, t.open, defs, depth)
    ensures var fields, own := WalkMembers(nodes, members, skip, scopes, t).0,
                               UnfoldMembers(depth, members, skip, scopes, stack);
            fields.Keys == own.Keys && forall k | k in fields :: UnfoldValue(depth, fields[k], defs) == own[k]
    decreases depth, 3, members
  {
    hide Walk, TraceWalk, Both, Faithful, Unfold, UnfoldValue;
    if members == [] {
    } else if members[0].key in skip {
      WalkMembersUnfolds(nodes, members[1..], skip, scopes, t, stack, defs, depth);
    } else {
      var (first, t') := Walk(nodes, members[0].value, scopes, true, t);
      var (rest, t'') := WalkMembers(nodes, members[1..], skip, scopes, t');
      WalkKeeps(nodes, members[0].value, scopes, true, t);
      WalkMembersKeeps(nodes, members[1..], skip, scopes, t');
      HoldsEarlier(defs, t', t'');
      FaithfulParts(TraceWalk(nodes, members[0].value, scopes, t), TraceMembers(nodes, members[1..], skip, scopes, t'),
                    stack, t.open, defs, depth);
      WalkUnfolds(nodes, members[0].value, scopes, true, t, stack, defs, depth);
      WalkMembersUnfolds(nodes, members[1..], skip, scopes, t', stack, defs, depth);
    }
  }

  /** A member that is walked keeps its key, and is a leaf exactly when it was. */
  lemma {:induction false} WalkedMember(nodes: set<Node>, members: seq<Member>, skip: set<string>,
                                        scopes: seq<Scope>, t: Tables, key: string)
    requires Closed(nodes) && MembersIn(members, nodes) && ScopesIn(scopes, nodes) && key !in skip
    ensures var fields, read := WalkMembers(nodes, members, skip, scopes, t).0, Get(members, key);
            && (key in fields <==> read.Some?)
            && (key in fields ==> (fields[key].Leaf? <==> read.value.NLeaf?))
            && (key in fields && fields[key].Leaf? ==> fields[key].scalar == read.value.scalar)
    decreases |members|
  {
    if members == [] {
    } else if members[0].key in skip {
      WalkedMember(nodes, members[1..], skip, scopes, t, key);
    } else {
      WalkedMember(nodes, members[1..], skip, scopes, Walk(nodes, members[0].value, scopes, true, t).1, key);
    }
  }

  /** The walk hoists the titled models and enumerations of the schema it reads. */
  lemma WalkedNamed(nodes: set<Node>, members: seq<Member>, skip: set<string>, scopes: seq<Scope>, t: Tables)
    requires Closed(nodes) && MembersIn(members, nodes) && ScopesIn(scopes, nodes)
    requires skip == {"$defs"}
    ensures HoistedTitle(WalkMembers(nodes, members, skip, scopes, t).0).Some? <==> IsNamed(members)
  {
    assert "title"[0] != '$' && "enum"[0] != '$' && "type"[0] != '$' && "properties"[0] != '$' && "$defs"[0] == '$';
    WalkedMember(nodes, members, skip, scopes, t, "title");
    WalkedMember(nodes, members, skip, scopes, t, "enum");
    WalkedMember(nodes, members, skip, scopes, t, "type");
    WalkedMember(nodes, members, skip, scopes, t, "properties");
    hide WalkMembers, Get;
  }

  /** A hoisted object is the body of the definition it was given. */
  lemma RegisteredName(title: string, fields: map<string, Value>, t: Tables, defs: map<string, Value>)
    returns (name: string)
    requires Consistent(t) && TidyBodies(t) && TidyInside(Obj(fields))
    requires Holds(defs, Register(title, Obj(fields), t).1)
    ensures name == Register(title, Obj(fields), t).0 && name in defs && defs[name] == Obj(fields)
    ensures Holds(defs, t)
  {
    RegisterKeeps(title, fields, t);
    name := Register(title, Obj(fields), t).0;
    HoldsEarlier(defs, t, Register(title, Obj(fields), t).1);
  }

  lemma {:induction false} WalkPlainUnfolds(nodes: set<Node>, node: Node, scopes: seq<Scope>, wrap: bool, t: Tables,
                                            stack: seq<Frame>, defs: map<string, Value>, depth: nat)
    requires Closed(nodes) && node in nodes && ScopesIn(scopes, nodes)
    requires Consistent(t) && TidyBodies(t) && StackOf(stack, t.open)
    requires node.NObj? && NodeRef(node.members).None?
    requires Holds(defs, Walk(nodes, node, scopes, wrap, t).1)
    requires Faithful(TraceWalk(nodes, node, scopes, t), stack, t.open, defs, depth)
    ensures UnfoldValue(depth, Walk(nodes, node, scopes, wrap, t).0, defs) == Unfold(depth, node, scopes, stack, wrap)
    decreases depth, 3, node, 0
  {
    hide WalkMembers, TraceMembers, UnfoldValue, UnfoldMembers,
      Faithful, HoistedTitle, IsNamed, Register, Holds, StackOf;
    var inner, skip := Enter(scopes, node.members), {"$defs"};
    EnterIn(scopes, node, nodes);
    var (fields, t') := WalkMembers(nodes, node.members, skip, inner, t);
    var trace := TraceMembers(nodes, node.members, skip, inner, t);
    WalkMembersKeeps(nodes, node.members, skip, inner, t);
    WalkedRef(nodes, node.members, skip, inner, t);
    WalkedNamed(nodes, node.members, skip, inner, t);
    if wrap && HoistedTitle(fields).Some? {
      var name := RegisteredName(HoistedTitle(fields).value, fields, t', defs);
      if depth > 0 {
        FaithfulShallower(trace, stack, t.open, defs, depth, depth - 1);
        WalkMembersUnfolds(nodes, node.members, skip, inner, t, stack, defs, depth - 1);
        UnfoldedPlain(depth - 1, fields, UnfoldMembers(depth - 1, node.members, skip, inner, stack), defs);
      }
      UnfoldedBareRef(depth, name, defs);
    } else {
      WalkMembersUnfolds(nodes, node.members, skip, inner, t, stack, defs, depth);
      UnfoldedPlain(depth, fields, UnfoldMembers(depth, node.members, skip, inner, stack), defs);
    }
  }
}
