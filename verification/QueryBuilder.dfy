/**
 The plugin SDK's query builder as a compiler: builder calls become a tree of conditions, the tree
 becomes JSON.  A builder closure is the list of calls it makes.
 */
module QueryBuilder {
  import opened Common
  import opened Json
  import opened QueryLiteral

  // ---------------------------------------------------------------------------
  // Condition trees and their JSON
  // ---------------------------------------------------------------------------

  datatype QueryNode =
    | Field(field: string, op: string, value: Value, value2: Option<Value>)
    | And(children: seq<QueryNode>)
    | Or(children: seq<QueryNode>)
    | Not(child: QueryNode)

  function ToJson(node: QueryNode): Value {
    match node
    case Field(field, op, value, value2) =>
      var flat := map["field" := Text(field), "op" := Text(op), "value" := value];
      Object(if value2.Some? then flat["value2" := value2.value] else flat)
    case And(children) => Object(map["AND" := Array(ToJsonAll(children))])
    case Or(children) => Object(map["OR" := Array(ToJsonAll(children))])
    case Not(child) => Object(map["NOT" := ToJson(child)])
  }

  function ToJsonAll(nodes: seq<QueryNode>): (r: seq<Value>)
    ensures |r| == |nodes|
  {
    if nodes == [] then [] else [ToJson(nodes[0])] + ToJsonAll(nodes[1..])
  }

  /** A decoder that is total on JSON values: it gives up on anything the encoder cannot emit. */
  function FromJson(v: Value): Option<QueryNode> {
    if !v.Object? then None
    else if "field" in v.members then FieldFromJson(v)
    else if v.members.Keys == {"AND"} && v.members["AND"].Array? then
      var children := FromJsonAll(v.members["AND"].items);
      if children.Some? then Some(And(children.value)) else None
    else if v.members.Keys == {"OR"} && v.members["OR"].Array? then
      var children := FromJsonAll(v.members["OR"].items);
      if children.Some? then Some(Or(children.value)) else None
    else if v.members.Keys == {"NOT"} then
      var child := FromJson(v.members["NOT"]);
      if child.Some? then Some(Not(child.value)) else None
    else None
  }

  function FieldFromJson(v: Value): Option<QueryNode>
    requires v.Object?
  {
    var m := v.members;
    if "field" in m && m["field"].Text? && "op" in m && m["op"].Text? && "value" in m
       && m.Keys <= {"field", "op", "value", "value2"}
    then Some(Field(m["field"].text, m["op"].text, m["value"], Lookup(m, "value2")))
    else None
  }

  function FromJsonAll(vs: seq<Value>): Option<seq<QueryNode>> {
    if vs == [] then Some([]) else
    var head := FromJson(vs[0]);
    var tail := FromJsonAll(vs[1..]);
    if head.Some? && tail.Some? then Some([head.value] + tail.value) else None
  }

  /** Decoding undoes encoding, for trees of any depth and any field values. */
  lemma {:induction false} RoundTrip(node: QueryNode)
    ensures FromJson(ToJson(node)) == Some(node)
  {
    match node
    case Field(field, op, value, value2) =>
    case And(children) => RoundTripAll(children);
    case Or(children) => RoundTripAll(children);
    case Not(child) => RoundTrip(child);
  }

  lemma {:induction false} RoundTripAll(nodes: seq<QueryNode>)
    ensures FromJsonAll(ToJsonAll(nodes)) == Some(nodes)
  {
    if nodes != [] {
      RoundTrip(nodes[0]);
      RoundTripAll(nodes[1..]);
      assert ToJsonAll(nodes)[0] == ToJson(nodes[0]) && ToJsonAll(nodes)[1..] == ToJsonAll(nodes[1..]);
      assert [nodes[0]] + nodes[1..] == nodes;
    }
  }

  // ---------------------------------------------------------------------------
  // The builder
  // ---------------------------------------------------------------------------

  /** The operators of `FieldQueryBuilder`. */
  datatype Condition =
    | Eq(literal: Literal)
    | Gt(literal: Literal)
    | Lt(literal: Literal)
    | Between(low: Literal, high: Literal)
    | In(literals: seq<Literal>)
    | Contains(text: string)
    | Similar(text: string, threshold: real)
    | Phonetic(text: string)
    | Fuzzy(text: string)
    | Match(text: string)

  function Finish(field: string, condition: Condition): QueryNode {
    match condition
    case Eq(l) => Field(field, "eq", LiteralJson(l), None)
    case Gt(l) => Field(field, "gt", LiteralJson(l), None)
    case Lt(l) => Field(field, "lt", LiteralJson(l), None)
    case Between(low, high) => Field(field, "between", LiteralJson(low), Some(LiteralJson(high)))
    case In(ls) => Field(field, "in", Array(seq(|ls|, i requires 0 <= i < |ls| => LiteralJson(ls[i]))), None)
    case Contains(t) => Field(field, "contains", Text(t), None)
    case Similar(t, threshold) =>
      Field(field, "similar", Object(map["text" := Text(t), "threshold" := Decimal(threshold)]), None)
    case Phonetic(t) => Field(field, "phonetic", Text(t), None)
    case Fuzzy(t) => Field(field, "fuzzy", Text(t), None)
    case Match(t) => Field(field, "match", Text(t), None)
  }

  /** Groups are written under names of their own, the children in order. */
  lemma GroupJson(children: seq<QueryNode>, i: nat)
    requires i < |children|
    ensures var v := ToJson(And(children));
            v.members.Keys == {"AND"} && v.members["AND"].Array? && v.members["AND"].items[i] == ToJson(children[i])
    ensures var v := ToJson(Or(children));
            v.members.Keys == {"OR"} && v.members["OR"].Array? && v.members["OR"].items[i] == ToJson(children[i])
    ensures var v := ToJson(Not(children[i])); v.members.Keys == {"NOT"} && v.members["NOT"] == ToJson(children[i])
  {
    ToJsonAllAt(children, i);
  }

  lemma {:induction false} ToJsonAllAt(nodes: seq<QueryNode>, i: nat)
    requires i < |nodes|
    ensures ToJsonAll(nodes)[i] == ToJson(nodes[i])
  {
    if i > 0 { ToJsonAllAt(nodes[1..], i - 1); }
  }

  /** A similarity search is written with its text and its threshold in one object. */
  lemma SimilarJson(field: string, text: string, threshold: real)
    ensures var v := ToJson(Finish(field, Similar(text, threshold)));
            && v.Object? && v.members.Keys == {"field", "op", "value"}
            && v.members["field"] == Text(field) && v.members["op"] == Text("similar")
            && v.members["value"].Object? && v.members["value"].members.Keys == {"text", "threshold"}
            && v.members["value"].members["text"] == Text(text)
            && v.members["value"].members["threshold"] == Decimal(threshold)
  {
    var v := ToJson(Finish(field, Similar(text, threshold)));
    assert v.members["value"] == Object(map["text" := Text(text), "threshold" := Decimal(threshold)]);
  }

  datatype Direction = Asc | Desc

  datatype Sort = Sort(field: string, direction: Direction)

  datatype Call =
    | Where(field: string, condition: Condition)
    | AndGroup(inner: seq<Call>)
    | OrGroup(inner: seq<Call>)
    | NotGroup(inner: seq<Call>)
    | Limit(count: nat)
    | Offset(count: nat)
    | SortBy(sort: Sort)

  /** The nodes a call pushes: a group pushes none when its closure built none. */
  function Compile(call: Call): (nodes: seq<QueryNode>)
    ensures |nodes| <= 1
  {
    match call
    case Where(field, condition) => [Finish(field, condition)]
    case AndGroup(inner) => var ns := CompileAll(inner); if ns == [] then [] else [And(ns)]
    case OrGroup(inner) => var ns := CompileAll(inner); if ns == [] then [] else [Or(ns)]
    case NotGroup(inner) => var ns := CompileAll(inner); if ns == [] then [] else [Not(ns[0])]
    case _ => []
  }

  function CompileAll(program: seq<Call>): seq<QueryNode> {
    if program == [] then [] else CompileAll(program[..|program| - 1]) + Compile(program[|program| - 1])
  }

  function WhereClause(nodes: seq<QueryNode>): Value {
    if |nodes| == 0 then Object(map[])
    else if |nodes| == 1 then ToJson(nodes[0])
    else ToJson(And(nodes))
  }

  function DirectionText(direction: Direction): string {
    if direction.Asc? then "asc" else "desc"
  }

  function SortJson(sort: Sort): Value {
    Object(map["field" := Text(sort.field), "direction" := Text(DirectionText(sort.direction))])
  }

  function SortsJson(sorts: seq<Sort>): seq<Value> {
    seq(|sorts|, i requires 0 <= i < |sorts| => SortJson(sorts[i]))
  }

  /** The whole query: optional members are left out when unset. */
  function QueryJson(path: string, nodes: seq<QueryNode>, limit: Option<nat>, offset: Option<nat>,
                     sorts: seq<Sort>): Value
  {
    var q0 := map["path" := Text(path), "where" := WhereClause(nodes)];
    var q1 := if limit.Some? then q0["limit" := Integer(limit.value)] else q0;
    var q2 := if offset.Some? then q1["offset" := Integer(offset.value)] else q1;
    var q3 := if sorts != [] then q2["order_by" := Array(SortsJson(sorts))] else q2;
    Object(q3)
  }

  class Builder {
    const path: string
    var nodes: seq<QueryNode>
    var limit: Option<nat>
    var offset: Option<nat>
    var sorts: seq<Sort>

    constructor (path: string)
      ensures this.path == path && nodes == [] && limit == None && offset == None && sorts == []
    {
      this.path := path;
      nodes, limit, offset, sorts := [], None, None, [];
    }

    /** One builder call; a group runs its closure on a builder of its own. */
    method Perform(call: Call)
      modifies this
      ensures nodes == old(nodes) + Compile(call)
      ensures limit == if call.Limit? then Some(call.count) else old(limit)
      ensures offset == if call.Offset? then Some(call.count) else old(offset)
      ensures sorts == if call.SortBy? then old(sorts) + [call.sort] else old(sorts)
      decreases call, 0
    {
      match call {
        case Where(field, condition) =>
          nodes := nodes + [Finish(field, condition)];
        case AndGroup(calls) =>
          var inner := new Builder("");
          inner.Run(calls);
          assert inner.nodes == CompileAll(calls);
          if inner.nodes != [] { nodes := nodes + [And(inner.nodes)]; }
        case OrGroup(calls) =>
          var inner := new Builder("");
          inner.Run(calls);
          assert inner.nodes == CompileAll(calls);
          if inner.nodes != [] { nodes := nodes + [Or(inner.nodes)]; }
        case NotGroup(calls) =>
          var inner := new Builder("");
          inner.Run(calls);
          assert inner.nodes == CompileAll(calls);
          if inner.nodes != [] { nodes := nodes + [Not(inner.nodes[0])]; }
        case Limit(count) =>
          limit := Some(count);
        case Offset(count) =>
          offset := Some(count);
        case SortBy(sort) =>
          sorts := sorts + [sort];
      }
    }

    method Run(program: seq<Call>)
      modifies this
      ensures nodes == old(nodes) + CompileAll(program)
      decreases program, 1
    {
      ghost var before := nodes;
      for i := 0 to |program|
        invariant nodes == before + CompileAll(program[..i])
      {
        Perform(program[i]);
        assert program[..i + 1][..i] == program[..i];
      }
      assert program[..|program|] == program;
    }

    /** The query says where to look, what the nodes mean together, and of page and order only what was set. */
    method ToQueryJson() returns (query: Value)
      ensures query == QueryJson(path, nodes, limit, offset, sorts)
      ensures Get(query, "path") == Some(Text(path)) && Get(query, "where").Some?
      ensures forall leaf: QueryNode -> bool :: ClauseHolds(Get(query, "where").value, leaf) <==> AllHold(nodes, leaf)
      ensures Get(query, "limit") == if limit.Some? then Some(Integer(limit.value)) else None
      ensures Get(query, "offset") == if offset.Some? then Some(Integer(offset.value)) else None
      ensures Get(query, "order_by") == if sorts == [] then None else Some(Array(SortsJson(sorts)))
    {
      var clause := BuildWhereClause();
      var members := map["path" := Text(path), "where" := clause];
      if limit.Some? { members := members["limit" := Integer(limit.value)]; }
      if offset.Some? { members := members["offset" := Integer(offset.value)]; }
      if sorts != [] { members := members["order_by" := Array(SortsJson(sorts))]; }
      query := Object(members);
    }

    /** The clause means that all the nodes hold, of whatever the fields say. */
    method BuildWhereClause() returns (clause: Value)
      ensures clause == WhereClause(nodes)
      ensures forall leaf: QueryNode -> bool :: ClauseHolds(clause, leaf) <==> AllHold(nodes, leaf)
    {
      NodesMean(nodes);
      if |nodes| == 0 {
        clause := Object(map[]);
      } else if |nodes| == 1 {
        clause := ToJson(nodes[0]);
      } else {
        clause := ToJson(And(nodes));
      }
    }
  }

  /** `AggregateBuilder`: a filter closure replaces the conditions of an earlier one. */
  class AggregateBuilder {
    var nodes: seq<QueryNode>

    constructor ()
      ensures nodes == []
    {
      nodes := [];
    }

    method Filter(program: seq<Call>)
      modifies this
      ensures nodes == CompileAll(program)
    {
      var inner := new Builder("");
      inner.Run(program);
      nodes := inner.nodes;
    }

    /** The same closure gives the clause a query builder would emit, with the same meaning. */
    method BuildWhereClause() returns (clause: Value)
      ensures clause == WhereClause(nodes)
      ensures forall leaf: QueryNode -> bool :: ClauseHolds(clause, leaf) <==> AllHold(nodes, leaf)
    {
      NodesMean(nodes);
      match |nodes| {
        case 0 => clause := Object(map[]);
        case 1 => clause := ToJson(nodes[0]);
        case _ => clause := ToJson(And(nodes));
      }
    }
  }

  // ---------------------------------------------------------------------------
  // Meaning
  // ---------------------------------------------------------------------------

  /** Whether a document satisfies a tree, given what it says of each field condition. */
  predicate Holds(node: QueryNode, leaf: QueryNode -> bool) {
    match node
    case Field(_, _, _, _) => leaf(node)
    case And(children) => AllHold(children, leaf)
    case Or(children) => AnyHolds(children, leaf)
    case Not(child) => !Holds(child, leaf)
  }

  predicate AllHold(nodes: seq<QueryNode>, leaf: QueryNode -> bool) {
    forall i :: 0 <= i < |nodes| ==> Holds(nodes[i], leaf)
  }

  predicate AnyHolds(nodes: seq<QueryNode>, leaf: QueryNode -> bool) {
    exists i :: 0 <= i < |nodes| && Holds(nodes[i], leaf)
  }

  lemma HoldAppended(nodes: seq<QueryNode>, more: seq<QueryNode>, leaf: QueryNode -> bool)
    requires |more| <= 1
    ensures AllHold(nodes + more, leaf) <==> AllHold(nodes, leaf) && (more != [] ==> Holds(more[0], leaf))
    ensures AnyHolds(nodes + more, leaf) <==> AnyHolds(nodes, leaf) || (more != [] && Holds(more[0], leaf))
  {
    var both := nodes + more;
    assert forall i :: 0 <= i < |nodes| ==> both[i] == nodes[i];
    if more != [] { assert both[|nodes|] == more[0]; }
  }

  /** The meaning of a where clause; the empty object is no condition.  Nothing else is meaningless. */
  predicate ClauseHolds(clause: Value, leaf: QueryNode -> bool) {
    clause == Object(map[]) || (FromJson(clause).Some? && Holds(FromJson(clause).value, leaf))
  }

  /** Whether the call says anything about documents. */
  predicate Speaks(call: Call) {
    match call
    case Where(_, _) => true
    case AndGroup(inner) => SomeSpeaks(inner)
    case OrGroup(inner) => SomeSpeaks(inner)
    case NotGroup(inner) => SomeSpeaks(inner)
    case _ => false
  }

  predicate SomeSpeaks(program: seq<Call>) {
    exists i :: 0 <= i < |program| && Speaks(program[i])
  }

  predicate FirstToSpeak(program: seq<Call>, i: nat)
    requires i < |program|
  {
    Speaks(program[i]) && forall j :: 0 <= j < i ==> !Speaks(program[j])
  }

  /** What a call asks of a document, told from the call alone. */
  predicate Asks(call: Call, leaf: QueryNode -> bool) {
    match call
    case Where(field, condition) => leaf(Finish(field, condition))
    case AndGroup(inner) => AsksAll(inner, leaf)
    case OrGroup(inner) => SomeSpeaks(inner) ==> AsksAny(inner, leaf)
    case NotGroup(inner) => forall i :: 0 <= i < |inner| && FirstToSpeak(inner, i) ==> !Asks(inner[i], leaf)
    case _ => true
  }

  /** All the calls together. */
  predicate AsksAll(program: seq<Call>, leaf: QueryNode -> bool) {
    forall i :: 0 <= i < |program| ==> Asks(program[i], leaf)
  }

  /** At least one of the calls that say something. */
  predicate AsksAny(program: seq<Call>, leaf: QueryNode -> bool) {
    exists i :: 0 <= i < |program| && Speaks(program[i]) && Asks(program[i], leaf)
  }

  /** A call pushes a node exactly when it says something, and that node means what the call asks. */
  lemma {:induction false} CompileCorrect(call: Call, leaf: QueryNode -> bool)
    ensures Compile(call) == [] <==> !Speaks(call)
    ensures Compile(call) == [] ==> Asks(call, leaf)
    ensures Compile(call) != [] ==> (Holds(Compile(call)[0], leaf) <==> Asks(call, leaf))
    decreases call, 0
  {
    match call
    case Where(_, _) =>
    case AndGroup(inner) =>
      CompileAllCorrect(inner, leaf);
    case OrGroup(inner) =>
      CompileAllCorrect(inner, leaf);
    case NotGroup(inner) =>
      CompileAllCorrect(inner, leaf);
      if CompileAll(inner) != [] { FirstNodeCorrect(inner, leaf); }
      OnlyOneFirst(inner);
    case _ =>
  }

  lemma OnlyOneFirst(program: seq<Call>)
    ensures forall i, j :: 0 <= i < |program| && 0 <= j < |program| ==>
              FirstToSpeak(program, i) && FirstToSpeak(program, j) ==> i == j
    ensures SomeSpeaks(program) <== exists i :: 0 <= i < |program| && FirstToSpeak(program, i)
  {}

  /** The nodes say what the calls ask. */
  predicate SaysAll(nodes: seq<QueryNode>, program: seq<Call>, leaf: QueryNode -> bool) {
    && (nodes == [] <==> !SomeSpeaks(program))
    && (AllHold(nodes, leaf) <==> AsksAll(program, leaf))
    && (AnyHolds(nodes, leaf) <==> AsksAny(program, leaf))
  }

  lemma {:induction false} CompileAllCorrect(program: seq<Call>, leaf: QueryNode -> bool)
    ensures SaysAll(CompileAll(program), program, leaf)
    decreases program, 1
  {
    if program != [] {
      var init, last := program[..|program| - 1], program[|program| - 1];
      CompileAllCorrect(init, leaf);
      CompileCorrect(last, leaf);
      SaidInOneMore(CompileAll(init), init, Compile(last), last, leaf);
      assert program == init + [last];
    }
  }

  lemma SaidInOneMore(nodes: seq<QueryNode>, init: seq<Call>, more: seq<QueryNode>, last: Call,
                      leaf: QueryNode -> bool)
    requires SaysAll(nodes, init, leaf) && |more| <= 1 && (more == [] <==> !Speaks(last))
    requires if more == [] then Asks(last, leaf) else Holds(more[0], leaf) <==> Asks(last, leaf)
    ensures SaysAll(nodes + more, init + [last], leaf)
  {
    HoldAppended(nodes, more, leaf);
    ProgramAppended(init, last, leaf);
  }

  lemma {:induction false} FirstNodeCorrect(program: seq<Call>, leaf: QueryNode -> bool)
    requires CompileAll(program) != []
    ensures exists i :: 0 <= i < |program| && FirstToSpeak(program, i) &&
                        (Holds(CompileAll(program)[0], leaf) <==> Asks(program[i], leaf))
    decreases program, 2
  {
    if program != [] {
      var n := |program| - 1;
      var init, last := program[..n], program[n];
      CompileAllCorrect(init, leaf);
      CompileCorrect(last, leaf);
      if CompileAll(init) != [] {
        FirstNodeCorrect(init, leaf);
        var i :| 0 <= i < |init| && FirstToSpeak(init, i)
            && (Holds(CompileAll(init)[0], leaf) <==> Asks(init[i], leaf));
        assert FirstToSpeak(program, i) && program[i] == init[i];
      } else {
        assert forall j :: 0 <= j < n ==> program[j] == init[j];
        assert FirstToSpeak(program, n);
      }
    }
  }

  lemma ProgramAppended(init: seq<Call>, last: Call, leaf: QueryNode -> bool)
    ensures SomeSpeaks(init + [last]) <==> SomeSpeaks(init) || Speaks(last)
    ensures AsksAll(init + [last], leaf) <==> AsksAll(init, leaf) && Asks(last, leaf)
    ensures AsksAny(init + [last], leaf) <==> AsksAny(init, leaf) || (Speaks(last) && Asks(last, leaf))
  {
    var program := init + [last];
    assert forall i :: 0 <= i < |init| ==> program[i] == init[i];
    assert program[|init|] == last;
  }

  /** The emitted clause asks of a document what the calls ask together. */
  lemma WhereClauseMeans(program: seq<Call>, leaf: QueryNode -> bool)
    ensures ClauseHolds(WhereClause(CompileAll(program)), leaf) <==> AsksAll(program, leaf)
  {
    CompileAllCorrect(program, leaf);
    NodesMean(CompileAll(program));
  }

  /** The clause of some nodes means their conjunction. */
  lemma NodesMean(nodes: seq<QueryNode>)
    ensures forall leaf: QueryNode -> bool :: ClauseHolds(WhereClause(nodes), leaf) <==> AllHold(nodes, leaf)
  {
    if |nodes| == 1 {
      RoundTrip(nodes[0]);
      EncodingIsNeverEmpty(nodes[0]);
    } else if |nodes| > 1 {
      RoundTrip(And(nodes));
      EncodingIsNeverEmpty(And(nodes));
    }
  }

  lemma EncodingIsNeverEmpty(node: QueryNode)
    ensures ToJson(node) != Object(map[])
  {
    assert ToJson(node).members.Keys != {} by {
      match node
      case Field(_, _, _, _) => assert "field" in ToJson(node).members;
      case And(_) => assert "AND" in ToJson(node).members;
      case Or(_) => assert "OR" in ToJson(node).members;
      case Not(_) => assert "NOT" in ToJson(node).members;
    }
  }
}
