/**
  Actions made from annotated functions: a signature is compiled once into a schema and a plan, and
  the handler follows the plan at every call.
 */
module AnnotatedActions {
  import opened Wrappers

  // Annotations.

  datatype Type = AnyType | NoneType | ActionType | NodeType | Plain(name: string) | Union(members: seq<Type>)
                | Stream(element: Option<Type>)

  datatype Value = NoneValue | Given(id: nat)

  /** Markers; an empty name stands for none. */
  datatype Marker =
    | InputPort(name: string, required: Option<bool>)
    | OutputPort(name: string, required: Option<bool>)
    | Header(name: string, default: Option<Value>, factory: Option<Value>)

  datatype Hint = Hint(annotation: Type, markers: seq<Marker>)

  datatype Kind = Ordinary | PositionalOnly | VarPositional | VarKeyword

  datatype Parameter = Parameter(name: string, kind: Kind, hint: Option<Hint>, default: Option<Value>)

  function Without<T(==)>(s: seq<T>, x: T): seq<T> {
    if s == [] then [] else (if s[0] == x then [] else [s[0]]) + Without(s[1..], x)
  }

  /** A type that admits none, split from none. */
  function StripOptional(t: Type): (Type, bool) {
    if !t.Union? then (t, false)
    else
      var others := Without(t.members, NoneType);
      if |others| == |t.members| then (t, false)
      else if others == [] then (NoneType, true)
      else if |others| == 1 then (others[0], true)
      else (Union(others), true)
  }

  lemma {:induction false} WithoutOne<T>(s: seq<T>, x: T)
    ensures |Without(s, x)| <= |s| && (|Without(s, x)| == |s| <==> x !in s)
    ensures forall y :: y in Without(s, x) <==> y in s && y != x
  {
    if s != [] {
      WithoutOne(s[1..], x);
      assert forall y :: y in s <==> y == s[0] || y in s[1..];
    }
  }

  /** A type admits none exactly if it is a union with none among its members. */
  lemma OptionalExactly(t: Type)
    ensures StripOptional(t).1 <==> t.Union? && NoneType in t.members
  {
    if t.Union? {
      WithoutOne(t.members, NoneType);
    }
  }

  function StreamElement(t: Type): (Type, bool) {
    if t.Stream? then (if t.element.Some? then t.element.value else AnyType, true) else (t, false)
  }

  function OrName(name: string, otherwise: string): string {
    if name != "" then name else otherwise
  }

  function Dashed(s: string): string {
    if s == "" then "" else [if s[0] == '_' then '-' else s[0]] + Dashed(s[1..])
  }

  // What one parameter stands for.

  datatype Binding =
    | ToAction
    | ToOutput(port: string, required: bool)
    | ToHeader(header: string, default: Option<Value>, factory: Option<Value>, optional: bool)
    | ToInput(port: string, streaming: bool, rawNode: bool, required: bool, default: Option<Value>)

  datatype Bound = Bound(parameter: string, binding: Binding)

  function BindHeader(p: Parameter, annotation: Type, marker: Marker): Binding
    requires marker.Header?
  {
    ToHeader(OrName(marker.name, Dashed(p.name)), if marker.default.Some? then marker.default else p.default,
             marker.factory, StripOptional(annotation).1)
  }

  function BindInput(p: Parameter, annotation: Type, marker: Option<Marker>): Option<Binding>
    requires marker.Some? ==> marker.value.InputPort?
  {
    var (stripped, optional) := StripOptional(annotation);
    var (element, streaming) := StreamElement(stripped);
    if streaming && (optional || element.NodeType?) then None
    else
      var required :=
        if marker.Some? && marker.value.required.Some? then marker.value.required.value
        else !streaming && !optional && p.default.None?;
      var empty := if p.default.Some? then p.default else if optional then Some(NoneValue) else None;
      Some(ToInput(OrName(if marker.Some? then marker.value.name else "", p.name), streaming, element.NodeType?,
                   required, empty))
  }

  /** The binding of a parameter, unless it cannot be bound. */
  function Bind(p: Parameter): Option<Binding> {
    if p.kind != Ordinary || p.hint.None? || |p.hint.value.markers| > 1 then None
    else
      var annotation := p.hint.value.annotation;
      if p.hint.value.markers == [] then
        if annotation.ActionType? then Some(ToAction) else BindInput(p, annotation, None)
      else
        var marker := p.hint.value.markers[0];
        match marker
        case Header(_, _, _) => Some(BindHeader(p, annotation, marker))
        case OutputPort(name, required) =>
          if !annotation.NodeType? then None
          else Some(ToOutput(OrName(name, p.name), if required.Some? then required.value else true))
        case InputPort(_, _) => BindInput(p, annotation, Some(marker))
  }

  /** Two parameters that lay claim to the same port or header. */
  predicate Clash(a: Binding, b: Binding) {
    match a
    case ToAction => false
    case ToOutput(port, _) => b.ToOutput? && b.port == port
    case ToHeader(header, _, _, _) => b.ToHeader? && b.header == header
    case ToInput(port, _, _, _, _) => b.ToInput? && b.port == port
  }

  ghost predicate Accepted(ps: seq<Parameter>) {
    && (forall i | 0 <= i < |ps| :: Bind(ps[i]).Some?)
    && (forall i, j | 0 <= i < j < |ps| && Bind(ps[i]).Some? && Bind(ps[j]).Some? ::
          !Clash(Bind(ps[i]).value, Bind(ps[j]).value))
  }

  /** No two parameters of a function have the same name. */
  ghost predicate Signature(ps: seq<Parameter>) {
    forall i, j | 0 <= i < j < |ps| :: ps[i].name != ps[j].name
  }

  // The plan and the schema.

  datatype Plan = Plan(actions: seq<Bound>, outputs: seq<Bound>, headers: seq<Bound>, inputs: seq<Bound>) {
    function All(): seq<Bound> {
      actions + outputs + headers + inputs
    }

    function Add(b: Bound): Plan {
      match b.binding
      case ToAction => this.(actions := actions + [b])
      case ToOutput(_, _) => this.(outputs := outputs + [b])
      case ToHeader(_, _, _, _) => this.(headers := headers + [b])
      case ToInput(_, _, _, _, _) => this.(inputs := inputs + [b])
    }
  }

  const EMPTY_PLAN := Plan([], [], [], [])

  /** Which ports there are and which of them are required; headers with their defaults. */
  datatype Schema = Schema(inputs: map<string, bool>, outputs: map<string, bool>, headers: map<string, Option<Value>>) {
    function Add(b: Binding): Schema {
      match b
      case ToAction => this
      case ToOutput(port, required) => this.(outputs := outputs[port := required])
      case ToHeader(header, default, _, _) => this.(headers := headers[header := default])
      case ToInput(port, _, _, required, _) => this.(inputs := inputs[port := required])
    }
  }

  function Bounds(ps: seq<Parameter>): seq<Bound>
    requires forall p | p in ps :: Bind(p).Some?
  {
    if ps == [] then []
    else
      var n := |ps| - 1;
      assert ps[n] in ps && forall p | p in ps[..n] :: p in ps;
      Bounds(ps[..n]) + [Bound(ps[n].name, Bind(ps[n]).value)]
  }

  lemma {:induction false} BoundsAt(ps: seq<Parameter>)
    requires forall p | p in ps :: Bind(p).Some?
    ensures |Bounds(ps)| == |ps|
    ensures forall i | 0 <= i < |ps| :: Bounds(ps)[i] == Bound(ps[i].name, Bind(ps[i]).value)
  {
    if ps != [] {
      assert forall p | p in ps[..|ps| - 1] :: p in ps;
      BoundsAt(ps[..|ps| - 1]);
      assert ps[|ps| - 1] in ps;
    }
  }

  /** Each group of a plan holds bindings of its kind. */
  ghost predicate Sorted(plan: Plan) {
    && (forall b | b in plan.actions :: b.binding.ToAction?)
    && (forall b | b in plan.outputs :: b.binding.ToOutput?)
    && (forall b | b in plan.headers :: b.binding.ToHeader?)
    && (forall b | b in plan.inputs :: b.binding.ToInput?)
  }

  /** The bindings to headers, or those to inputs, in the order they come. */
  ghost function Group(bounds: seq<Bound>, header: bool): seq<Bound> {
    if bounds == [] then []
    else
      var n := |bounds| - 1;
      Group(bounds[..n], header) + if IsOf(bounds[n].binding, header) then [bounds[n]] else []
  }

  predicate IsOf(b: Binding, header: bool) {
    if header then b.ToHeader? else b.ToInput?
  }

  /** A plan holds exactly these bindings, each in the group of its kind, and keeps the order in which they are read. */
  ghost predicate Plans(plan: Plan, bounds: seq<Bound>) {
    HoldsAll(plan, bounds) && KeepsOrder(plan, bounds)
  }

  ghost predicate HoldsAll(plan: Plan, bounds: seq<Bound>) {
    multiset(plan.All()) == multiset(bounds) && Sorted(plan)
  }

  lemma AddHoldsAll(plan: Plan, bounds: seq<Bound>, b: Bound)
    requires HoldsAll(plan, bounds)
    ensures HoldsAll(plan.Add(b), bounds + [b])
  {
  }

  ghost predicate KeepsOrder(plan: Plan, bounds: seq<Bound>) {
    plan.headers == Group(bounds, true) && plan.inputs == Group(bounds, false)
  }

  lemma AddKeepsOrder(plan: Plan, bounds: seq<Bound>, b: Bound)
    requires KeepsOrder(plan, bounds)
    ensures KeepsOrder(plan.Add(b), bounds + [b])
  {
    assert (bounds + [b])[..|bounds|] == bounds;
  }

  lemma AddPlans(plan: Plan, bounds: seq<Bound>, b: Bound)
    requires Plans(plan, bounds)
    ensures Plans(plan.Add(b), bounds + [b])
  {
    hide KeepsOrder, HoldsAll;
    AddHoldsAll(plan, bounds, b);
    AddKeepsOrder(plan, bounds, b);
  }

  /** A binding and a schema that match: the schema has its entry, with the same flag or default. */
  predicate Declares(schema: Schema, b: Binding) {
    match b
    case ToAction => true
    case ToOutput(port, required) => port in schema.outputs && schema.outputs[port] == required
    case ToHeader(header, default, _, _) => header in schema.headers && schema.headers[header] == default
    case ToInput(port, _, _, required, _) => port in schema.inputs && schema.inputs[port] == required
  }

  /** Nothing is declared but what some parameter is bound to, or came with the extra headers. */
  ghost predicate OnlyDeclares(schema: Schema, bounds: seq<Bound>, extra: map<string, Option<Value>>) {
    && (forall port | port in schema.inputs :: exists b :: b in bounds && b.binding.ToInput? && b.binding.port == port)
    && (forall port | port in schema.outputs ::
          exists b :: b in bounds && b.binding.ToOutput? && b.binding.port == port)
    && (forall name | name in schema.headers ::
          (name in extra && schema.headers[name] == extra[name])
          || exists b :: b in bounds && b.binding.ToHeader? && b.binding.header == name)
  }

  ghost predicate Describes(schema: Schema, bounds: seq<Bound>, extra: map<string, Option<Value>>) {
    && (forall b | b in bounds :: Declares(schema, b.binding))
    && OnlyDeclares(schema, bounds, extra) && extra.Keys <= schema.headers.Keys
  }

  /** Which parameter has claimed each port and header. */
  datatype Claims = Claims(inputs: map<string, string>, outputs: map<string, string>, headers: map<string, string>) {
    predicate Has(b: Binding) {
      match b
      case ToAction => false
      case ToOutput(port, _) => port in outputs
      case ToHeader(header, _, _, _) => header in headers
      case ToInput(port, _, _, _, _) => port in inputs
    }

    function Add(b: Binding, parameter: string): Claims {
      match b
      case ToAction => this
      case ToOutput(port, _) => this.(outputs := outputs[port := parameter])
      case ToHeader(header, _, _, _) => this.(headers := headers[header := parameter])
      case ToInput(port, _, _, _, _) => this.(inputs := inputs[port := parameter])
    }
  }

  /** A binding is claimed already if and only if it clashes with one met before. */
  ghost predicate Tracks(claims: Claims, bounds: seq<Bound>) {
    forall b: Binding :: claims.Has(b) <==> exists c :: c in bounds && Clash(c.binding, b)
  }

  lemma AddTracks(claims: Claims, bounds: seq<Bound>, b: Bound)
    requires Tracks(claims, bounds)
    ensures Tracks(claims.Add(b.binding, b.parameter), bounds + [b])
  {
    var claims', bounds' := claims.Add(b.binding, b.parameter), bounds + [b];
    forall x: Binding ensures claims'.Has(x) <==> exists c :: c in bounds' && Clash(c.binding, x) {
      assert claims'.Has(x) <==> claims.Has(x) || Clash(b.binding, x);
      if claims.Has(x) {
        var c :| c in bounds && Clash(c.binding, x);
        assert c in bounds';
      }
      if Clash(b.binding, x) {
        assert b in bounds';
      }
    }
  }

  lemma AddDeclares(schema: Schema, b: Binding, c: Binding)
    requires Declares(schema, c) && !Clash(c, b)
    ensures Declares(schema.Add(b), c)
  {
  }

  lemma AddOnlyDeclares(schema: Schema, bounds: seq<Bound>, extra: map<string, Option<Value>>, b: Bound)
    requires OnlyDeclares(schema, bounds, extra)
    ensures OnlyDeclares(schema.Add(b.binding), bounds + [b], extra)
  {
    assert b in bounds + [b] && forall c | c in bounds :: c in bounds + [b];
  }

  lemma AddDescribes(schema: Schema, bounds: seq<Bound>, extra: map<string, Option<Value>>, b: Bound)
    requires Describes(schema, bounds, extra)
    requires forall c | c in bounds :: !Clash(c.binding, b.binding)
    ensures Describes(schema.Add(b.binding), bounds + [b], extra)
  {
    assert Declares(schema.Add(b.binding), b.binding);
    AddOnlyDeclares(schema, bounds, extra, b);
    hide OnlyDeclares;
    hide Clash;
    hide Declares;
    forall c | c in bounds ensures Declares(schema.Add(b.binding), c.binding) {
      AddDeclares(schema, b.binding, c.binding);
    }
  }

  /** What is known once these parameters have been looked at. */
  ghost predicate Analysed(ps: seq<Parameter>, plan: Plan, schema: Schema, claims: Claims,
                           extra: map<string, Option<Value>>)
  {
    && Accepted(ps) && (forall p | p in ps :: Bind(p).Some?)
    && Plans(plan, Bounds(ps)) && Tracks(claims, Bounds(ps)) && Describes(schema, Bounds(ps), extra)
  }

  lemma BoundsNext(ps: seq<Parameter>, n: nat)
    requires n < |ps| && (forall p | p in ps[..n] :: Bind(p).Some?) && Bind(ps[n]).Some?
    ensures forall p | p in ps[..n + 1] :: Bind(p).Some?
    ensures Bounds(ps[..n + 1]) == Bounds(ps[..n]) + [Bound(ps[n].name, Bind(ps[n]).value)]
  {
    hide Bind;
    assert ps[..n + 1] == ps[..n] + [ps[n]];
    assert ps[..n + 1][..n] == ps[..n];
  }

  lemma AnalysedNext(ps: seq<Parameter>, n: nat, plan: Plan, schema: Schema, claims: Claims,
                     extra: map<string, Option<Value>>, binding: Binding)
    requires n < |ps| && Analysed(ps[..n], plan, schema, claims, extra) && Bind(ps[n]) == Some(binding)
    ensures claims.Has(binding) ==> !Accepted(ps)
    ensures !claims.Has(binding) ==>
              var b := Bound(ps[n].name, binding);
              Analysed(ps[..n + 1], plan.Add(b), schema.Add(binding), claims.Add(binding, ps[n].name), extra)
  {
    hide Bind, Clash, Tracks, Describes, Plans, Accepted, Bounds;
    var b, bounds := Bound(ps[n].name, binding), Bounds(ps[..n]);
    Clashes(claims, bounds, binding);
    if claims.Has(binding) {
      Refuse(ps, n);
    } else {
      AddPlans(plan, bounds, b);
      AddTracks(claims, bounds, b);
      AddDescribes(schema, bounds, extra, b);
      AcceptNext(ps, n);
      BoundsNext(ps, n);
    }
  }

  lemma Clashes(claims: Claims, bounds: seq<Bound>, binding: Binding)
    requires Tracks(claims, bounds)
    ensures claims.Has(binding) <==> exists c :: c in bounds && Clash(c.binding, binding)
  {
  }

  /**
    Compiles the parameters: accepted exactly if each can be bound and no two claim the same port
    or header; then the plan holds each parameter once and the schema matches the plan.
   */
  method AnalyseParameters(ps: seq<Parameter>, extra: map<string, Option<Value>>)
    returns (accepted: bool, plan: Plan, schema: Schema)
    ensures accepted <==> Accepted(ps)
    ensures accepted ==> (forall p | p in ps :: Bind(p).Some?) && Plans(plan, Bounds(ps))
                         && Describes(schema, Bounds(ps), extra)
  {
    plan, schema := EMPTY_PLAN, Schema(map[], map[], extra);
    var claims := Claims(map[], map[], map[]);
    assert ps[..0] == [];
    for n := 0 to |ps|
      invariant Analysed(ps[..n], plan, schema, claims, extra)
    {
      hide Analysed, Clash, Plans, Describes;
      var p := ps[n];
      var binding := Bind(p);
      if binding.None? {
        return false, plan, schema;
      }
      AnalysedNext(ps, n, plan, schema, claims, extra, binding.value);
      if claims.Has(binding.value) {
        return false, plan, schema;
      }
      var b := Bound(p.name, binding.value);
      plan, schema, claims := plan.Add(b), schema.Add(b.binding), claims.Add(b.binding, p.name);
    }
    assert ps[..|ps|] == ps;
    return true, plan, schema;
  }

  lemma Refuse(ps: seq<Parameter>, n: nat)
    requires n < |ps| && Bind(ps[n]).Some? && forall p | p in ps[..n] :: Bind(p).Some?
    requires exists c :: c in Bounds(ps[..n]) && Clash(c.binding, Bind(ps[n]).value)
    ensures !Accepted(ps)
  {
    BoundsAt(ps[..n]);
    var c :| c in Bounds(ps[..n]) && Clash(c.binding, Bind(ps[n]).value);
    var i :| 0 <= i < n && Bounds(ps[..n])[i] == c;
    assert ps[..n][i] == ps[i] && ps[i] in ps[..n];
  }

  lemma AcceptNext(ps: seq<Parameter>, n: nat)
    requires n < |ps| && Accepted(ps[..n]) && Bind(ps[n]).Some? && forall p | p in ps[..n] :: Bind(p).Some?
    requires forall c | c in Bounds(ps[..n]) :: !Clash(c.binding, Bind(ps[n]).value)
    ensures Accepted(ps[..n + 1]) && forall p | p in ps[..n + 1] :: Bind(p).Some?
  {
    hide Bind;
    hide Clash;
    var less, more := ps[..n], ps[..n + 1];
    BoundsAt(less);
    assert forall i | 0 <= i < n :: more[i] == less[i] && Bounds(less)[i] in Bounds(less);
    assert more[n] == ps[n];
  }

  // The handler.

  /** What a call brings: for each header and port nothing, a value, or trouble in reading it. */
  datatype Reading = Absent | Read(value: Value) | Raises

  datatype Call = Call(headers: map<string, Reading>, inputs: map<string, Reading>) {
    function Header(name: string): Reading {
      if name in headers then headers[name] else Absent
    }

    function Input(port: string): Reading {
      if port in inputs then inputs[port] else Absent
    }
  }

  datatype Failure = MissingHeader(name: string) | MissingInput(port: string) | Raised

  datatype Argument = TheAction | OutputNode(port: string) | InputNode(port: string) | InputStream(port: string)
                    | Passed(value: Value)

  datatype Outcome = Ok(argument: Argument) | Fails(failure: Failure)

  function ReadHeader(b: Binding, call: Call): Outcome
    requires b.ToHeader?
  {
    match call.Header(b.header)
    case Read(value) => Ok(Passed(value))
    case Raises => Fails(Raised)
    case Absent =>
      if b.factory.Some? then Ok(Passed(b.factory.value))
      else if b.default.Some? then Ok(Passed(b.default.value))
      else if b.optional then Ok(Passed(NoneValue))
      else Fails(MissingHeader(b.header))
  }

  /** A port that yields nothing, or none, which the handler cannot tell apart. */
  predicate Empty(call: Call, port: string) {
    call.Input(port).Absent? || call.Input(port) == Read(NoneValue)
  }

  function ReadInput(b: Binding, call: Call): Outcome
    requires b.ToInput?
  {
    if call.Input(b.port).Raises? then Fails(Raised)
    else if !Empty(call, b.port) then Ok(Passed(call.Input(b.port).value))
    else if b.default.Some? then Ok(Passed(b.default.value))
    else if b.required then Fails(MissingInput(b.port))
    else Ok(Passed(NoneValue))
  }

  /** Bindings whose argument is read during the call. */
  predicate Reads(b: Binding) {
    b.ToHeader? || (b.ToInput? && !b.streaming && !b.rawNode)
  }

  function ArgumentFor(b: Binding, call: Call): Outcome {
    match b
    case ToAction => Ok(TheAction)
    case ToOutput(port, _) => Ok(OutputNode(port))
    case ToHeader(_, _, _, _) => ReadHeader(b, call)
    case ToInput(port, streaming, rawNode, _, _) =>
      if rawNode then Ok(InputNode(port)) else if streaming then Ok(InputStream(port)) else ReadInput(b, call)
  }

  /** The failure of the first of these bindings that fails. */
  function FirstFailure(bounds: seq<Bound>, call: Call): Option<Failure> {
    if bounds == [] then None
    else
      var first := ArgumentFor(bounds[0].binding, call);
      if first.Fails? then Some(first.failure) else FirstFailure(bounds[1..], call)
  }

  lemma {:induction false} FirstFailureLast(bounds: seq<Bound>, b: Bound, call: Call)
    ensures FirstFailure(bounds + [b], call)
            == var earlier := FirstFailure(bounds, call);
               if earlier.Some? then earlier
               else var last := ArgumentFor(b.binding, call); if last.Fails? then Some(last.failure) else None
  {
    hide ArgumentFor;
    if bounds == [] {
      assert [b][1..] == [] && bounds + [b] == [b];
    } else {
      assert (bounds + [b])[1..] == bounds[1..] + [b] && (bounds + [b])[0] == bounds[0];
      FirstFailureLast(bounds[1..], b, call);
    }
  }

  /** The arguments passed so far: those of exactly these bindings. */
  ghost predicate Passes(kwargs: map<string, Argument>, bounds: set<Bound>, call: Call) {
    && kwargs.Keys == (set b | b in bounds :: b.parameter)
    && (forall b | b in bounds :: b.parameter in kwargs && ArgumentFor(b.binding, call) == Ok(kwargs[b.parameter]))
  }

  ghost function Selected(bounds: seq<Bound>, reading: bool): set<Bound> {
    set b | b in bounds && Reads(b.binding) == reading
  }

  /** No two bindings of a plan are for the same parameter. */
  ghost predicate OneEach(bounds: seq<Bound>) {
    forall i, j | 0 <= i < j < |bounds| :: bounds[i].parameter != bounds[j].parameter
  }

  lemma PassesOneMore(kwargs: map<string, Argument>, done: set<Bound>, call: Call, b: Bound, argument: Argument)
    requires Passes(kwargs, done, call) && ArgumentFor(b.binding, call) == Ok(argument)
    requires forall c | c in done && c.parameter == b.parameter :: c == b
    ensures Passes(kwargs[b.parameter := argument], done + {b}, call)
  {
    hide ArgumentFor;
  }

  /** Bindings for the same parameter are the same. */
  ghost predicate Coherent(all: set<Bound>) {
    forall b, c | b in all && c in all && b.parameter == c.parameter :: b == c
  }

  lemma UnreadIsOk(b: Binding, call: Call)
    ensures !Reads(b) ==> ArgumentFor(b, call).Ok?
  {
  }

  /** The bindings passed once n of a group have been looked at. */
  ghost function PassedOf(done: set<Bound>, group: seq<Bound>, n: nat, reading: bool): set<Bound>
    requires n <= |group|
  {
    done + Selected(group[..n], reading)
  }

  lemma PassesNext(kwargs: map<string, Argument>, done: set<Bound>, group: seq<Bound>, n: nat, reading: bool,
                   call: Call, argument: Argument)
    requires n < |group| && Passes(kwargs, PassedOf(done, group, n, reading), call)
    requires Coherent(done + (set b | b in group)) && Reads(group[n].binding) == reading
    requires ArgumentFor(group[n].binding, call) == Ok(argument)
    ensures Passes(kwargs[group[n].parameter := argument], PassedOf(done, group, n + 1, reading), call)
  {
    hide ArgumentFor;
    hide Passes;
    var b, now := group[n], PassedOf(done, group, n, reading);
    assert now + {b} == PassedOf(done, group, n + 1, reading) by {
      assert group[..n + 1] == group[..n] + [b];
    }
    assert now <= done + (set b | b in group) by {
      assert forall c | c in group[..n] :: c in group;
    }
    PassesOneMore(kwargs, now, call, b, argument);
  }

  lemma PassesOver(done: set<Bound>, group: seq<Bound>, n: nat, reading: bool)
    requires n < |group|
    ensures Reads(group[n].binding) != reading ==>
              PassedOf(done, group, n + 1, reading) == PassedOf(done, group, n, reading)
  {
    assert group[..n + 1] == group[..n] + [group[n]];
  }

  lemma PassesEnds(done: set<Bound>, group: seq<Bound>, reading: bool, call: Call)
    ensures PassedOf(done, group, 0, reading) == done && FirstFailure(group[..0], call).None?
    ensures PassedOf(done, group, |group|, reading) == done + Selected(group, reading) && group[..|group|] == group
  {
  }

  lemma FailureNext(group: seq<Bound>, n: nat, call: Call)
    requires n < |group| && FirstFailure(group[..n], call).None?
    ensures var outcome := ArgumentFor(group[n].binding, call);
            if outcome.Ok? then FirstFailure(group[..n + 1], call).None?
            else FirstFailure(group, call) == Some(outcome.failure)
    ensures !Reads(group[n].binding) ==> ArgumentFor(group[n].binding, call).Ok?
  {
    assert group[..n + 1] == group[..n] + [group[n]];
    FirstFailureLast(group[..n], group[n], call);
    if ArgumentFor(group[n].binding, call).Fails? {
      FirstFailureStays(group, n + 1, call);
    }
  }

  /** One loop of the handler: passes those of a group that are read, or those that are not. */
  method PassGroup(before: map<string, Argument>, group: seq<Bound>, reading: bool, call: Call, ghost done: set<Bound>)
    returns (kwargs: map<string, Argument>, failure: Option<Failure>)
    requires Passes(before, done, call) && Coherent(done + (set b | b in group))
    ensures failure == if reading then FirstFailure(group, call) else None
    ensures failure.None? ==> Passes(kwargs, done + Selected(group, reading), call)
  {
    hide Passes, Selected, Coherent, ArgumentFor, Reads, FirstFailure, PassedOf;
    kwargs, failure := before, None;
    PassesEnds(done, group, reading, call);
    for n := 0 to |group|
      invariant Passes(kwargs, PassedOf(done, group, n, reading), call)
      invariant reading ==> FirstFailure(group[..n], call).None?
    {
      var b := group[n];
      PassesOver(done, group, n, reading);
      UnreadIsOk(b.binding, call);
      if reading {
        FailureNext(group, n, call);
      }
      if Reads(b.binding) == reading {
        var outcome := ArgumentFor(b.binding, call);
        if outcome.Fails? {
          return kwargs, Some(outcome.failure);
        }
        PassesNext(kwargs, done, group, n, reading, call, outcome.argument);
        kwargs := kwargs[b.parameter := outcome.argument];
      }
    }
  }

  lemma {:induction false} FirstFailureStays(bounds: seq<Bound>, n: nat, call: Call)
    requires n <= |bounds| && FirstFailure(bounds[..n], call).Some?
    ensures FirstFailure(bounds, call) == FirstFailure(bounds[..n], call)
  {
    hide ArgumentFor;
    if n > 0 {
      assert bounds[..n][1..] == bounds[1..][..n - 1] && bounds[..n][0] == bounds[0];
      if !ArgumentFor(bounds[0].binding, call).Fails? {
        FirstFailureStays(bounds[1..], n - 1, call);
      }
    }
  }

  lemma PlanCoherent(plan: Plan)
    requires Sorted(plan) && OneEach(plan.All())
    ensures Coherent(set b | b in plan.All())
    ensures Selected(plan.actions, false) + Selected(plan.outputs, false) + Selected(plan.headers, true)
            + Selected(plan.inputs, false) + Selected(plan.inputs, true)
            == set b | b in plan.All()
  {
  }

  /** What the loops of the handler meet, one after the other, is coherent. */
  lemma PlanGroups(plan: Plan)
    requires Sorted(plan) && OneEach(plan.All())
    ensures var actions, outputs := Selected(plan.actions, false), Selected(plan.outputs, false);
            var headers, inputs := Selected(plan.headers, true), Selected(plan.inputs, false);
            && Coherent({} + (set b | b in plan.actions))
            && Coherent({} + actions + (set b | b in plan.outputs))
            && Coherent({} + actions + outputs + (set b | b in plan.headers))
            && Coherent({} + actions + outputs + headers + (set b | b in plan.inputs))
            && Coherent({} + actions + outputs + headers + inputs + (set b | b in plan.inputs))
            && {} + actions + outputs + headers + inputs + Selected(plan.inputs, true) == set b | b in plan.All()
  {
    PlanCoherent(plan);
    hide Coherent;
    hide Reads;
    var all := set b | b in plan.All();
    var actions, outputs := Selected(plan.actions, false), Selected(plan.outputs, false);
    var headers, inputs := Selected(plan.headers, true), Selected(plan.inputs, false);
    assert {} + actions + outputs + headers + inputs + Selected(plan.inputs, true)
           == actions + outputs + headers + inputs + Selected(plan.inputs, true);
  }

  /**
    The handler up to the call of the function: it fails with the first header, and else the first
    input, that fails; otherwise it passes what each binding of the plan stands for.
   */
  method BindArguments(plan: Plan, call: Call) returns (kwargs: map<string, Argument>, failure: Option<Failure>)
    requires Sorted(plan) && OneEach(plan.All())
    ensures failure == FirstFailure(plan.headers + plan.inputs, call)
    ensures failure.None? ==> Passes(kwargs, (set b | b in plan.All()), call)
  {
    ghost var done: set<Bound> := {};
    kwargs := map[];
    assert Passes(kwargs, done, call);
    PlanGroups(plan);
    FirstFailureBoth(plan.headers, plan.inputs, call);
    hide Passes, Selected, Coherent, Sorted, OneEach, FirstFailure;
    kwargs, failure := PassGroup(kwargs, plan.actions, false, call, done);
    done := done + Selected(plan.actions, false);
    kwargs, failure := PassGroup(kwargs, plan.outputs, false, call, done);
    done := done + Selected(plan.outputs, false);
    kwargs, failure := PassGroup(kwargs, plan.headers, true, call, done);
    if failure.Some? {
      return;
    }
    done := done + Selected(plan.headers, true);
    kwargs, failure := PassGroup(kwargs, plan.inputs, false, call, done);
    done := done + Selected(plan.inputs, false);
    kwargs, failure := PassGroup(kwargs, plan.inputs, true, call, done);
  }

  lemma {:induction false} FirstFailureBoth(a: seq<Bound>, b: seq<Bound>, call: Call)
    ensures FirstFailure(a + b, call)
            == if FirstFailure(a, call).Some? then FirstFailure(a, call) else FirstFailure(b, call)
  {
    hide ArgumentFor;
    if a == [] {
      assert a + b == b;
    } else {
      assert (a + b)[1..] == a[1..] + b && (a + b)[0] == a[0];
      FirstFailureBoth(a[1..], b, call);
    }
  }

  // What the caller of an action can rely on.

  /** The parameter of a signature with a given name gets what its own annotation asks for. */
  ghost predicate PassesParameters(kwargs: map<string, Argument>, ps: seq<Parameter>, call: Call) {
    && (forall p | p in ps :: Bind(p).Some?)
    && kwargs.Keys == (set p | p in ps :: p.name)
    && (forall p | p in ps :: p.name in kwargs && ArgumentFor(Bind(p).value, call) == Ok(kwargs[p.name]))
  }

  lemma {:induction false} NoFailure(bounds: seq<Bound>, call: Call)
    ensures FirstFailure(bounds, call).None? <==> forall b | b in bounds :: ArgumentFor(b.binding, call).Ok?
    ensures FirstFailure(bounds, call).Some? ==>
              exists b :: b in bounds && ArgumentFor(b.binding, call) == Fails(FirstFailure(bounds, call).value)
  {
    hide ArgumentFor;
    if bounds != [] {
      NoFailure(bounds[1..], call);
      assert forall b | b in bounds :: b == bounds[0] || b in bounds[1..];
      assert bounds[0] in bounds;
    }
  }

  lemma SameMembers(a: seq<Bound>, b: seq<Bound>)
    requires multiset(a) == multiset(b)
    ensures forall x :: x in a <==> x in b
  {
    forall x ensures x in a <==> x in b {
      assert x in a <==> x in multiset(a);
      assert x in b <==> x in multiset(b);
    }
  }

  lemma {:induction false} OneEachOf(a: seq<Bound>, b: seq<Bound>)
    requires multiset(a) == multiset(b) && OneEach(b)
    ensures OneEach(a)
  {
    forall i, j | 0 <= i < j < |a| ensures a[i].parameter != a[j].parameter {
      SameMembers(a, b);
      assert a[i] in b && a[j] in b;
      if a[i] == a[j] {
        TwiceCounted(a, i, j);
        OnceCounted(b, a[i]);
        assert false;
      }
    }
  }

  lemma TwiceCounted(a: seq<Bound>, i: nat, j: nat)
    requires i < j < |a| && a[i] == a[j]
    ensures multiset(a)[a[i]] >= 2
  {
    assert a == a[..j] + [a[j]] + a[j + 1..];
    assert a[..j][i] == a[i];
    assert multiset(a[..j])[a[i]] >= 1;
  }

  lemma {:induction false} OnceCounted(b: seq<Bound>, x: Bound)
    requires OneEach(b)
    ensures multiset(b)[x] <= 1
  {
    if b != [] {
      var n := |b| - 1;
      OnceCounted(b[..n], x);
      assert b == b[..n] + [b[n]];
      assert x == b[n] ==> x !in b[..n];
    }
  }

  /** A binding that is some parameter's. */
  ghost predicate Stands(b: Bound, ps: seq<Parameter>) {
    exists p :: p in ps && Bind(p).Some? && b == Bound(p.name, Bind(p).value)
  }

  lemma BoundsStand(ps: seq<Parameter>, b: Bound)
    requires forall p | p in ps :: Bind(p).Some?
    ensures b in Bounds(ps) <==> Stands(b, ps)
  {
    hide Bind;
    BoundsAt(ps);
    if b in Bounds(ps) {
      var i :| 0 <= i < |ps| && Bounds(ps)[i] == b;
      assert ps[i] in ps;
    }
    if Stands(b, ps) {
      var p :| p in ps && b == Bound(p.name, Bind(p).value);
      var i :| 0 <= i < |ps| && ps[i] == p;
      assert Bounds(ps)[i] == b;
    }
  }

  /** A plan holds the bindings of these parameters and no others. */
  ghost predicate Complete(plan: Plan, ps: seq<Parameter>) {
    forall b :: b in plan.All() <==> Stands(b, ps)
  }

  /** A plan holds every parameter exactly once. */
  lemma PlannedOnce(plan: Plan, ps: seq<Parameter>)
    requires Signature(ps) && (forall p | p in ps :: Bind(p).Some?) && Plans(plan, Bounds(ps))
    ensures OneEach(plan.All()) && |plan.All()| == |ps| && Complete(plan, ps)
  {
    hide Bind;
    hide Stands;
    BoundsAt(ps);
    assert |multiset(plan.All())| == |multiset(Bounds(ps))|;
    OneEachOf(plan.All(), Bounds(ps));
    SameMembers(plan.All(), Bounds(ps));
    forall b ensures b in plan.All() <==> Stands(b, ps) {
      BoundsStand(ps, b);
    }
  }

  /** The bindings that can fail are all among the headers and the inputs. */
  lemma FailureIsAParameters(plan: Plan, ps: seq<Parameter>, call: Call)
    requires Signature(ps) && (forall p | p in ps :: Bind(p).Some?) && Plans(plan, Bounds(ps))
    ensures var failure := FirstFailure(plan.headers + plan.inputs, call);
            && (failure.None? <==> forall p | p in ps :: ArgumentFor(Bind(p).value, call).Ok?)
            && (failure.Some? ==> exists p :: p in ps && ArgumentFor(Bind(p).value, call) == Fails(failure.value))
  {
    var group := plan.headers + plan.inputs;
    PlannedOnce(plan, ps);
    NoFailure(group, call);
    hide Bind;
    forall p | p in ps ensures Bound(p.name, Bind(p).value) in group || ArgumentFor(Bind(p).value, call).Ok? {
      var b := Bound(p.name, Bind(p).value);
      assert Stands(b, ps) && b in plan.All();
      UnreadIsOk(b.binding, call);
    }
    assert forall b | b in group :: b in plan.All() && Stands(b, ps);
  }

  lemma PassedParameter(plan: Plan, ps: seq<Parameter>, kwargs: map<string, Argument>, call: Call, p: Parameter)
    requires p in ps && Bind(p).Some? && Complete(plan, ps)
    requires Passes(kwargs, (set b | b in plan.All()), call)
    ensures p.name in kwargs && ArgumentFor(Bind(p).value, call) == Ok(kwargs[p.name])
  {
    hide Bind, ArgumentFor;
    var b := Bound(p.name, Bind(p).value);
    assert Stands(b, ps) && b in plan.All();
  }

  lemma PassedName(plan: Plan, ps: seq<Parameter>, kwargs: map<string, Argument>, call: Call, name: string)
    requires name in kwargs && Complete(plan, ps)
    requires Passes(kwargs, (set b | b in plan.All()), call)
    ensures exists p :: p in ps && p.name == name
  {
    hide Bind, ArgumentFor;
    var b :| b in plan.All() && b.parameter == name;
    assert Stands(b, ps);
  }

  lemma PassedIsParameters(plan: Plan, ps: seq<Parameter>, kwargs: map<string, Argument>, call: Call)
    requires Signature(ps) && (forall p | p in ps :: Bind(p).Some?) && Plans(plan, Bounds(ps))
    requires Passes(kwargs, (set b | b in plan.All()), call)
    ensures PassesParameters(kwargs, ps, call)
  {
    hide Bind, ArgumentFor, Plans, OneEach, Signature, Passes, Complete;
    PlannedOnce(plan, ps);
    forall p | p in ps ensures p.name in kwargs && ArgumentFor(Bind(p).value, call) == Ok(kwargs[p.name]) {
      PassedParameter(plan, ps, kwargs, call, p);
    }
    forall name | name in kwargs ensures name in set p | p in ps :: p.name {
      PassedName(plan, ps, kwargs, call, name);
    }
  }

  function PortName(p: Parameter): string {
    OrName(if p.hint.Some? && p.hint.value.markers != [] then p.hint.value.markers[0].name else "", p.name)
  }

  /** A value that a parameter takes from an input port and cannot do without. */
  predicate Needs(p: Parameter) {
    && p.hint.Some? && p.default.None?
    && (if p.hint.value.markers == [] then !p.hint.value.annotation.ActionType?
        else p.hint.value.markers[0].InputPort? && p.hint.value.markers[0].required != Some(false))
    && !StripOptional(p.hint.value.annotation).1
    && !p.hint.value.annotation.NodeType? && !p.hint.value.annotation.Stream?
  }

  /**
    A call fails for a missing input exactly if the parameter needs its port and the port is empty;
    the schema marks every such port as required.
   */
  lemma MissingExactly(p: Parameter, call: Call)
    requires Bind(p).Some?
    ensures (exists port :: ArgumentFor(Bind(p).value, call) == Fails(MissingInput(port)))
            <==> Needs(p) && Empty(call, PortName(p))
    ensures forall port, schema: Schema |
              ArgumentFor(Bind(p).value, call) == Fails(MissingInput(port)) && Declares(schema, Bind(p).value) ::
              port in schema.inputs && schema.inputs[port]
  {
    var b := Bind(p).value;
    var annotation := p.hint.value.annotation;
    if b.ToInput? && !b.streaming && !b.rawNode && ReadInput(b, call) == Fails(MissingInput(b.port)) {
      assert ArgumentFor(b, call) == Fails(MissingInput(b.port));
    }
    assert !StripOptional(annotation).1 ==> StripOptional(annotation).0 == annotation;
  }

  // Where the function's own result goes.

  const DEFAULT_OUTPUT_NAME := "output"

  datatype Function = Function(parameters: seq<Parameter>, annotation: Option<Type>, generator: bool)

  datatype OutputSpec = OutputSpec(name: string, required: Option<bool>)

  /** The port of a function's own result. */
  function ResultPort(output: OutputSpec): string {
    OrName(output.name, DEFAULT_OUTPUT_NAME)
  }

  datatype ResultBinding = ResultBinding(port: string, streaming: bool)

  /** Whether a result annotation goes with the outputs that the parameters declare. */
  predicate AcceptedResult(fn: Function, declared: bool) {
    if fn.generator then !declared && (fn.annotation.None? || fn.annotation.value.Stream?)
    else if fn.annotation.None? then declared
    else fn.annotation.value.NoneType? || !declared
  }

  /** Whether a function has a result of its own to deliver. */
  predicate HasResult(fn: Function) {
    fn.generator || (fn.annotation.Some? && !fn.annotation.value.NoneType?)
  }

  /**
    Decides on the result: an accepted function has a port for its result exactly if it has one to
    deliver, and then that port is the only output.
   */
  method AnalyseResult(fn: Function, declared: bool, schema: Schema, output: OutputSpec)
    returns (accepted: bool, result: Option<ResultBinding>, schema': Schema)
    requires declared <==> schema.outputs != map[]
    ensures accepted <==> AcceptedResult(fn, declared)
    ensures accepted ==> (result.Some? <==> HasResult(fn))
    ensures schema'.inputs == schema.inputs && schema'.headers == schema.headers
    ensures accepted && result.None? ==> schema' == schema
    ensures accepted && result.Some? ==>
              && result.value == ResultBinding(ResultPort(output), fn.generator)
              && schema'.outputs.Keys == {ResultPort(output)}
              && schema'.outputs[ResultPort(output)]
                 == if output.required.Some? then output.required.value
                    else fn.generator || !(fn.annotation.value.Union? && NoneType in fn.annotation.value.members)
  {
    var name := ResultPort(output);
    result, schema' := None, schema;
    if fn.generator {
      if declared || (fn.annotation.Some? && !StreamElement(fn.annotation.value).1) {
        return false, None, schema;
      }
      schema' :=
        schema.(outputs := schema.outputs[name := if output.required.Some? then output.required.value else true]);
      return true, Some(ResultBinding(name, true)), schema';
    }
    if fn.annotation.None? {
      return declared, None, schema;
    }
    if fn.annotation.value.NoneType? {
      return true, None, schema;
    }
    if declared {
      return false, None, schema;
    }
    var optional := StripOptional(fn.annotation.value).1;
    OptionalExactly(fn.annotation.value);
    schema' :=
      schema.(outputs := schema.outputs[name := if output.required.Some? then output.required.value else !optional]);
    return true, Some(ResultBinding(name, false)), schema';
  }

  /** How the function comes back: with a value, with values one by one and perhaps an error, or with an error. */
  datatype Returned = Gives(value: Value) | Throws | Yields(values: seq<Value>, throws: bool)

  datatype Operation = Put(port: string, value: Value) | Finalize(port: string, last: Option<Value>)

  predicate Normal(r: Returned) {
    r.Gives? || (r.Yields? && !r.throws)
  }

  function Finalizations(ops: seq<Operation>): nat {
    if ops == [] then 0 else Finalizations(ops[..|ops| - 1]) + if ops[|ops| - 1].Finalize? then 1 else 0
  }

  /**
    Delivers a result: the values yielded are put in order, and the port is finalised once, last of
    all, exactly if the function returned normally and has a result.
   */
  method Deliver(result: Option<ResultBinding>, returned: Returned) returns (ops: seq<Operation>)
    requires if result.Some? then result.value.streaming == returned.Yields? else !returned.Yields?
    ensures Finalizations(ops) == if result.Some? && Normal(returned) then 1 else 0
    ensures result.Some? && Normal(returned) ==> ops != [] && ops[|ops| - 1].Finalize?
    ensures result.None? || returned.Throws? ==> ops == []
    ensures forall op | op in ops :: op.port == result.value.port
    ensures returned.Yields? ==>
              && |ops| == |returned.values| + (if returned.throws then 0 else 1)
              && (forall i | 0 <= i < |returned.values| :: ops[i] == Put(result.value.port, returned.values[i]))
              && (!returned.throws ==> ops[|returned.values|] == Finalize(result.value.port, None))
    ensures result.Some? && returned.Gives? ==> ops == [Finalize(result.value.port, Some(returned.value))]
  {
    ops := [];
    if result.None? || returned.Throws? {
      return;
    }
    if returned.Gives? {
      return [Finalize(result.value.port, Some(returned.value))];
    }
    for n := 0 to |returned.values|
      invariant |ops| == n && Finalizations(ops) == 0
      invariant forall i | 0 <= i < n :: ops[i] == Put(result.value.port, returned.values[i])
    {
      assert (ops + [Put(result.value.port, returned.values[n])])[..n] == ops;
      ops := ops + [Put(result.value.port, returned.values[n])];
    }
    if !returned.throws {
      assert (ops + [Finalize(result.value.port, None)])[..|ops|] == ops;
      ops := ops + [Finalize(result.value.port, None)];
    }
  }
}
