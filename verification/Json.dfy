/**
  JSON documents in the two forms the schema reorganiser handles.

  A `Node` is what it reads: objects keep their members in order, and every array and
  object carries a tag, so that two objects with equal contents can still be told apart
  the way Python's `id` does.  A `Value` is what it writes: objects are maps, so two values
  are equal exactly when their key-sorted JSON texts are.
 */
module Json {
  import opened Wrappers

  datatype Scalar = Null | Literal(text: string) | Text(s: string)

  datatype Value =
    | Leaf(scalar: Scalar)
    | Arr(items: seq<Value>)
    | Obj(fields: map<string, Value>)

  datatype Node =
    | NLeaf(scalar: Scalar)
    | NArr(tag: nat, elements: seq<Node>)
    | NObj(tag: nat, members: seq<Member>)

  datatype Member = Member(key: string, value: Node)

  const REF_PREFIX := "#/$defs/"

  /** The definition a string refers to, when it is a local reference. */
  function RefTarget(s: string): Option<string> {
    if REF_PREFIX <= s then Some(s[|REF_PREFIX|..]) else None
  }

  /** The text of a reference to `name`. */
  function RefTo(name: string): (v: Value)
    ensures v.Leaf? && v.scalar.Text? && RefTarget(v.scalar.s) == Some(name)
  {
    Leaf(Text(REF_PREFIX + name))
  }

  /** `dict.get` on an object that has been read. */
  function Get(members: seq<Member>, key: string): Option<Node> {
    if members == [] then None
    else if members[0].key == key then Some(members[0].value)
    else Get(members[1..], key)
  }

  /** The definition an object that has been read refers to, if it is a reference. */
  function NodeRef(members: seq<Member>): Option<string> {
    match Get(members, "$ref")
    case Some(NLeaf(Text(s))) => RefTarget(s)
    case _ => None
  }

  /** The definition an object that has been written refers to, if it is a reference. */
  function ValueRef(fields: map<string, Value>): Option<string> {
    if "$ref" in fields && fields["$ref"].Leaf? && fields["$ref"].scalar.Text?
    then RefTarget(fields["$ref"].scalar.s)
    else None
  }

  function Children(node: Node): seq<Node> {
    match node
    case NLeaf(_) => []
    case NArr(_, elements) => elements
    case NObj(_, members) => seq(|members|, i requires 0 <= i < |members| => members[i].value)
  }

  /** A set of nodes that holds the children of each of its nodes. */
  ghost predicate Closed(nodes: set<Node>) {
    forall n, c | n in nodes && c in Children(n) :: c in nodes
  }

  ghost predicate MembersIn(members: seq<Member>, nodes: set<Node>) {
    forall m | m in members :: m.value in nodes
  }

  /** Every node of a document. */
  ghost function Nodes(node: Node): set<Node>
    ensures node in Nodes(node)
    decreases node
  {
    match node
    case NLeaf(_) => {node}
    case NArr(_, elements) =>
      {node} + (set i, n | 0 <= i < |elements| && n in Nodes(elements[i]) :: n)
    case NObj(_, members) =>
      {node} + (set i, n | 0 <= i < |members| && n in Nodes(members[i].value) :: n)
  }

  lemma NodesClosed(node: Node)
    ensures Closed(Nodes(node))
  {
    match node
    case NLeaf(_) =>
    case NArr(_, elements) =>
      forall i | 0 <= i < |elements|
        ensures Closed(Nodes(elements[i])) && Nodes(elements[i]) <= Nodes(node)
      {
        NodesClosed(elements[i]);
      }
    case NObj(_, members) =>
      forall i | 0 <= i < |members|
        ensures Closed(Nodes(members[i].value)) && Nodes(members[i].value) <= Nodes(node)
      {
        NodesClosed(members[i].value);
      }
  }

  lemma GetIn(members: seq<Member>, key: string)
    ensures Get(members, key).Some? ==> Member(key, Get(members, key).value) in members
  {
  }
}
