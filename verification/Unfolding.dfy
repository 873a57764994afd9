/**
  What a schema means when its definitions may refer to themselves: the tree left when the
  named schemas in it are opened up to some depth.  A named schema is a definition that is
  referred to, or a titled model or enumeration written inline.  Whatever lies deeper is elided,
  and a reference that leads nowhere stays as it is, so every schema has such a tree.
 */
module Unfolding {
  import opened Wrappers
  import opened Json
  import opened Inlining

  /** What stands for a named schema that is too deep to open. */
  const ELIDED := Leaf(Null)

  /** A definition being unfolded, and the scopes it was entered under. */
  datatype Frame = Frame(target: Node, scopes: seq<Scope>)

  /** The frames there were when a definition was entered, if it is being unfolded. */
  function Enclosing(stack: seq<Frame>, target: Node): (r: Option<seq<Frame>>)
    ensures r.Some? ==> r.value != [] && r.value[|r.value| - 1].target == target
  {
    if stack == [] then None
    else if stack[|stack| - 1].target == target then Some(stack)
    else Enclosing(stack[..|stack| - 1], target)
  }

  /** Following a reference: back to where the definition was entered, or one frame on. */
  function Entered(stack: seq<Frame>, target: Node, scopes: seq<Scope>): (r: seq<Frame>)
    ensures r != [] && r[|r| - 1].target == target
  {
    match Enclosing(stack, target)
    case Some(enclosing) => enclosing
    case None => stack + [Frame(target, scopes)]
  }

  /** Whether an object is a titled model or enumeration. */
  predicate IsNamed(members: seq<Member>) {
    (match Get(members, "title")
     case Some(NLeaf(Text(_))) => true
     case _ => false)
    && (Get(members, "enum").Some?
        || (Get(members, "type") == Some(NLeaf(Text("object"))) && Get(members, "properties").Some?))
  }

  /** A document read scope by scope; `inner` says that the node is written inside another. */
  function Unfold(depth: nat, node: Node, scopes: seq<Scope>, stack: seq<Frame>, inner: bool): Value
    decreases depth, node
  {
    match node
    case NLeaf(scalar) => Leaf(scalar)
    case NArr(_, elements) => Arr(UnfoldItems(depth, elements, scopes, stack))
    case NObj(_, members) =>
      var seen := Enter(scopes, members);
      match NodeRef(members) {
        case Some(name) =>
          var overrides := UnfoldMembers(depth, members, {"$ref", "$defs"}, seen, stack);
          (match Lookup(seen, name)
           case None => Obj(overrides["$ref" := RefTo(name)])
           case Some(target) =>
             if depth == 0 then Overlay(ELIDED, overrides)
             else
               var into := Entered(stack, target, seen);
               Overlay(Unfold(depth - 1, target, into[|into| - 1].scopes, into, false), overrides))
        case None =>
          if !inner || !IsNamed(members) then Obj(UnfoldMembers(depth, members, {"$defs"}, seen, stack))
          else if depth == 0 then ELIDED
          else Obj(UnfoldMembers(depth - 1, members, {"$defs"}, seen, stack))
      }
  }

  function UnfoldItems(depth: nat, elements: seq<Node>, scopes: seq<Scope>, stack: seq<Frame>): seq<Value>
    decreases depth, elements
  {
    if elements == [] then []
    else [Unfold(depth, elements[0], scopes, stack, true)] + UnfoldItems(depth, elements[1..], scopes, stack)
  }

  function UnfoldMembers(depth: nat, members: seq<Member>, skip: set<string>, scopes: seq<Scope>, stack: seq<Frame>)
    : map<string, Value>
    decreases depth, members
  {
    if members == [] then map[]
    else
      var rest := UnfoldMembers(depth, members[1..], skip, scopes, stack);
      if members[0].key in skip then rest
      else rest[members[0].key := Unfold(depth, members[0].value, scopes, stack, true)]
  }

  /** A document read against one table of definitions. */
  function UnfoldValue(depth: nat, value: Value, defs: map<string, Value>): Value
    decreases depth, value
  {
    match value
    case Leaf(_) => value
    case Arr(items) => Arr(seq(|items|, i requires 0 <= i < |items| => UnfoldValue(depth, items[i], defs)))
    case Obj(fields) =>
      var own := map k | k in fields && IsOwn(fields, k) :: UnfoldValue(depth, fields[k], defs);
      match ValueRef(fields) {
        case Some(name) =>
          if name !in defs then Obj(own["$ref" := RefTo(name)])
          else Overlay(if depth == 0 then ELIDED else UnfoldValue(depth - 1, defs[name], defs), own)
        case None => Obj(own)
      }
  }

  lemma UnfoldedPlain(depth: nat, fields: map<string, Value>, own: map<string, Value>, defs: map<string, Value>)
    requires fields.Keys == own.Keys && "$defs" !in own && ValueRef(fields).None?
    requires forall k | k in fields :: UnfoldValue(depth, fields[k], defs) == own[k]
    ensures UnfoldValue(depth, Obj(fields), defs) == Obj(own)
  {
    var value := Obj(fields);
    assert (map k | k in value.fields && IsOwn(value.fields, k) :: UnfoldValue(depth, value.fields[k], defs)) == own;
  }

  lemma UnfoldedRef(depth: nat, overrides: map<string, Value>, own: map<string, Value>, name: string,
                    defs: map<string, Value>)
    requires overrides.Keys == own.Keys && "$ref" !in own && "$defs" !in own
    requires forall k | k in overrides :: UnfoldValue(depth, overrides[k], defs) == own[k]
    ensures UnfoldValue(depth, Obj(overrides["$ref" := RefTo(name)]), defs)
            == if name !in defs then Obj(own["$ref" := RefTo(name)])
               else Overlay(if depth == 0 then ELIDED else UnfoldValue(depth - 1, defs[name], defs), own)
  {
    var value := Obj(overrides["$ref" := RefTo(name)]);
    assert ValueRef(value.fields) == Some(name);
    assert (map k | k in value.fields && IsOwn(value.fields, k) :: UnfoldValue(depth, value.fields[k], defs)) == own;
  }

  lemma UnfoldedBareRef(depth: nat, name: string, defs: map<string, Value>)
    requires name in defs && (depth > 0 ==> UnfoldValue(depth - 1, defs[name], defs).Obj?)
    ensures UnfoldValue(depth, Obj(map["$ref" := RefTo(name)]), defs)
            == if depth == 0 then ELIDED else UnfoldValue(depth - 1, defs[name], defs)
  {
    var none: map<string, Value> := map[];
    UnfoldedRef(depth, none, none, name, defs);
    assert none["$ref" := RefTo(name)] == map["$ref" := RefTo(name)];
    if depth > 0 {
      assert forall fields: map<string, Value> :: fields + none == fields;
    }
  }

}
