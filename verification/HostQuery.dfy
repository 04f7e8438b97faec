/**
 The host's side of a plugin query: `parse_where_clause` and `parse_query_from_json` as they read
 what the SDK's builder emits.
 */
module HostQuery {
  import opened Common
  import opened Bytes
  import opened Json
  import opened QueryLiteral
  import B = QueryBuilder

  const MAX_WHERE_CLAUSE_DEPTH: nat := 32

  datatype ParseError =
    | TooDeep | NotAnArray | MissingField | MissingOp | MissingValue | BadValue | UnknownOp | BadStructure | MissingPath

  datatype FuzzyOptions = FuzzyOptions(edits: Option<nat>, jaroWinkler: bool)

  /** An operation on a field, with literals as bytes once the host has read it. */
  datatype QueryOp<T> =
    | Eq(value: T)
    | Gt(value: T)
    | Lt(value: T)
    | Between(low: T, high: T)
    | In(values: seq<T>)
    | Contains(text: string)
    | Similar(text: string, threshold: real)
    | Phonetic(text: string)
    | Fuzzy(text: string, options: FuzzyOptions)
    | Match(text: string)

  datatype Node<T> =
    | Field(field: string, operation: QueryOp<T>)
    | And(children: seq<Node<T>>)
    | Or(children: seq<Node<T>>)
    | Not(child: Node<T>)

  function ParseLiteral(v: Value): Result<Bytes, ParseError> {
    match QueryBytes(v)
    case Some(b) => Ok(b)
    case None => Err(BadValue)
  }

  /** The elements of an array, up to the first that cannot be converted. */
  function ParseLiterals(vs: seq<Value>): Result<seq<Bytes>, ParseError> {
    if vs == [] then Ok([]) else
    var head := ParseLiteral(vs[0]);
    if head.Err? then Err(head.error) else
    var tail := ParseLiterals(vs[1..]);
    if tail.Err? then Err(tail.error) else Ok([head.value] + tail.value)
  }

  /** `fuzziness` and `algorithm`, members the SDK never writes. */
  function ParseFuzzyOptions(v: Value): FuzzyOptions {
    var edits :=
      match Get(v, "fuzziness")
      case Some(Integer(n)) => Some(if n < 0 then 0 else n)
      case _ => None;
    FuzzyOptions(edits, Get(v, "algorithm") == Some(Text("jaro_winkler")))
  }

  function ParseThreshold(v: Value): real {
    match Get(v, "threshold")
    case Some(Integer(n)) => n as real
    case Some(Decimal(d)) => d
    case _ => 0.3
  }

  function ParseOperation(v: Value, op: string, value: Value): Result<QueryOp<Bytes>, ParseError> {
    if op == "eq" then var b := ParseLiteral(value); if b.Ok? then Ok(Eq(b.value)) else Err(b.error)
    else if op == "gt" then var b := ParseLiteral(value); if b.Ok? then Ok(Gt(b.value)) else Err(b.error)
    else if op == "lt" then var b := ParseLiteral(value); if b.Ok? then Ok(Lt(b.value)) else Err(b.error)
    else if op == "between" then
      var low := ParseLiteral(value);
      if low.Err? then Err(low.error)
      else if Get(v, "value2").None? then Err(MissingValue)
      else
        var high := ParseLiteral(Get(v, "value2").value);
        if high.Err? then Err(high.error) else Ok(Between(low.value, high.value))
    else if op == "in" then
      if !value.Array? then Err(BadValue) else
      var bs := ParseLiterals(value.items);
      if bs.Ok? then Ok(In(bs.value)) else Err(bs.error)
    else if op == "contains" then if value.Text? then Ok(Contains(value.text)) else Err(BadValue)
    else if op == "similar" then
      if value.Text? then Ok(Similar(value.text, ParseThreshold(v))) else Err(BadValue)
    else if op == "phonetic" then if value.Text? then Ok(Phonetic(value.text)) else Err(BadValue)
    else if op == "fuzzy" then if value.Text? then Ok(Fuzzy(value.text, ParseFuzzyOptions(v))) else Err(BadValue)
    else if op == "match" then if value.Text? then Ok(Match(value.text)) else Err(BadValue)
    else Err(UnknownOp)
  }

  function ParseSingleField(v: Value): Result<Node<Bytes>, ParseError> {
    match (Get(v, "field"), Get(v, "op"), Get(v, "value"))
    case (Some(Text(field)), Some(Text(op)), Some(value)) =>
      var operation := ParseOperation(v, op, value);
      if operation.Ok? then Ok(Field(field, operation.value)) else Err(operation.error)
    case (Some(Text(field)), Some(Text(op)), None) => Err(MissingValue)
    case (Some(Text(field)), _, _) => Err(MissingOp)
    case _ => Err(MissingField)
  }

  function ParseWhere(v: Value, depth: nat): Result<Node<Bytes>, ParseError>
    decreases v, 1
  {
    if depth > MAX_WHERE_CLAUSE_DEPTH then Err(TooDeep)
    else if v.Array? then
      var children := ParseWhereAll(v, v.items, depth + 1);
      if children.Ok? then Ok(And(children.value)) else Err(children.error)
    else if Get(v, "and").Some? then
      if !v.members["and"].Array? then Err(NotAnArray) else
      var children := ParseWhereAll(v, v.members["and"].items, depth + 1);
      if children.Ok? then Ok(And(children.value)) else Err(children.error)
    else if Get(v, "or").Some? then
      if !v.members["or"].Array? then Err(NotAnArray) else
      var children := ParseWhereAll(v, v.members["or"].items, depth + 1);
      if children.Ok? then Ok(Or(children.value)) else Err(children.error)
    else if Get(v, "not").Some? then
      var child := ParseWhere(v.members["not"], depth + 1);
      if child.Ok? then Ok(Not(child.value)) else Err(child.error)
    else if Get(v, "field").Some? then ParseSingleField(v)
    else Err(BadStructure)
  }

  /** The elements of an array that lies inside `whole`, up to the first that fails to parse. */
  function ParseWhereAll(ghost whole: Value, items: seq<Value>, depth: nat): Result<seq<Node<Bytes>>, ParseError>
    requires forall i :: 0 <= i < |items| ==> (items[i] < whole)
    decreases whole, 0, |items|
  {
    if items == [] then Ok([]) else
    var head := ParseWhere(items[0], depth);
    if head.Err? then Err(head.error) else
    var tail := ParseWhereAll(whole, items[1..], depth);
    if tail.Err? then Err(tail.error) else Ok([head.value] + tail.value)
  }

  // ---------------------------------------------------------------------------
  // Whole queries
  // ---------------------------------------------------------------------------

  datatype Query = Query(
    path: string, node: Option<Node<Bytes>>, limit: Option<nat>, offset: Option<nat>, sorts: seq<B.Sort>)

  function AsU64(v: Option<Value>): Option<nat> {
    if v.Some? && v.value.Integer? && v.value.integer >= 0 then Some(v.value.integer) else None
  }

  /** One element of `order_by`, skipped unless it names a field. */
  function ParseSort(v: Value): seq<B.Sort> {
    match Get(v, "field")
    case Some(Text(field)) => [B.Sort(field, if Get(v, "direction") == Some(Text("desc")) then B.Desc else B.Asc)]
    case _ => []
  }

  function ParseSorts(vs: seq<Value>): seq<B.Sort> {
    if vs == [] then [] else ParseSort(vs[0]) + ParseSorts(vs[1..])
  }

  function ParseQuery(json: Value): Result<Query, ParseError> {
    match Get(json, "path")
    case Some(Text(path)) =>
      var clause := match Get(json, "where") case Some(c) => c case None => Array([]);
      var node := ParseWhere(clause, 0);
      if node.Err? then Err(node.error) else
      var sorts := match Get(json, "order_by") case Some(Array(vs)) => ParseSorts(vs) case _ => [];
      Ok(Query(path, if node.value == And([]) then None else Some(node.value),
               AsU64(Get(json, "limit")), AsU64(Get(json, "offset")), sorts))
    case _ => Err(MissingPath)
  }

  // ---------------------------------------------------------------------------
  // What the host makes of the SDK's queries
  // ---------------------------------------------------------------------------

  /** The bytes of a literal that can be converted. */
  function InBytes(v: Value): Bytes {
    match QueryBytes(v)
    case Some(b) => b
    case None => []
  }

  /** What the host reads of a literal. */
  function Received(l: Literal): Bytes {
    InBytes(LiteralJson(l))
  }

  /** The host operation of a builder condition, given what becomes of its literals. */
  function Carried(condition: B.Condition, bytes: Literal -> Bytes): QueryOp<Bytes> {
    match condition
    case Eq(l) => Eq(bytes(l))
    case Gt(l) => Gt(bytes(l))
    case Lt(l) => Lt(bytes(l))
    case Between(low, high) => Between(bytes(low), bytes(high))
    case In(ls) => In(seq(|ls|, i requires 0 <= i < |ls| => bytes(ls[i])))
    case Contains(t) => Contains(t)
    case Similar(t, threshold) => Similar(t, threshold)
    case Phonetic(t) => Phonetic(t)
    case Fuzzy(t) => Fuzzy(t, FuzzyOptions(None, false))
    case Match(t) => Match(t)
  }

  /** The operation with its literals as the host converts them. */
  function Read(condition: B.Condition): QueryOp<Bytes> {
    Carried(condition, Received)
  }

  /** The operation on what the indexer files the literals under. */
  function Intended(condition: B.Condition): QueryOp<Bytes> {
    Carried(condition, Meant)
  }

  /** The one condition of a program that has exactly one call that says anything. */
  predicate OnlyCondition(program: seq<B.Call>, i: nat) {
    i < |program| && program[i].Where? && forall j :: 0 <= j < |program| && j != i ==> !B.Speaks(program[j])
  }

  /** The condition is not a similarity search, and its literals are finite. */
  predicate Readable(condition: B.Condition) {
    match condition
    case Eq(l) => !l.NonFinite?
    case Gt(l) => !l.NonFinite?
    case Lt(l) => !l.NonFinite?
    case Between(low, high) => !low.NonFinite? && !high.NonFinite?
    case In(ls) => forall i :: 0 <= i < |ls| ==> !ls[i].NonFinite?
    case Similar(_, _) => false
    case _ => true
  }

  /** The condition is not a similarity search, and its literals arrive as what they are filed under. */
  predicate Faithful(condition: B.Condition) {
    match condition
    case Eq(l) => Arrives(l)
    case Gt(l) => Arrives(l)
    case Lt(l) => Arrives(l)
    case Between(low, high) => Arrives(low) && Arrives(high)
    case In(ls) => forall i :: 0 <= i < |ls| ==> Arrives(ls[i])
    case Similar(_, _) => false
    case _ => true
  }

  /** The program is one plain condition that the host can read. */
  predicate Deliverable(program: seq<B.Call>) {
    exists i :: 0 <= i < |program| && OnlyCondition(program, i) && Readable(program[i].condition)
  }

  lemma SingleFieldParses(field: string, condition: B.Condition)
    ensures ParseWhere(B.ToJson(B.Finish(field, condition)), 0)
         == if Readable(condition) then Ok(Field(field, Read(condition))) else Err(BadValue)
  {
    var node := B.Finish(field, condition);
    FieldMembers(node);
    ConditionParses(field, condition, B.ToJson(node));
  }

  lemma FieldMembers(node: B.QueryNode)
    requires node.Field?
    ensures var v := B.ToJson(node);
            && Get(v, "field") == Some(Text(node.field))
            && Get(v, "op") == Some(Text(node.op))
            && Get(v, "value") == Some(node.value)
            && Get(v, "value2") == node.value2
            && Get(v, "and").None? && Get(v, "or").None? && Get(v, "not").None?
            && Get(v, "fuzziness").None? && Get(v, "algorithm").None?
  {}

  lemma ConditionParses(field: string, condition: B.Condition, v: Value)
    requires Get(v, "value2") == B.Finish(field, condition).value2
    requires Get(v, "fuzziness").None? && Get(v, "algorithm").None?
    ensures ParseOperation(v, B.Finish(field, condition).op, B.Finish(field, condition).value)
         == if Readable(condition) then Ok(Read(condition)) else Err(BadValue)
  {
    match condition
    case Eq(l) => LiteralParses(l);
    case Gt(l) => LiteralParses(l);
    case Lt(l) => LiteralParses(l);
    case Between(low, high) =>
      LiteralParses(low);
      LiteralParses(high);
    case In(ls) =>
      LiteralsParse(ls);
      assert Read(condition).values == seq(|ls|, i requires 0 <= i < |ls| => Received(ls[i]));
    case _ =>
  }

  predicate Convertible(v: Value) {
    QueryBytes(v).Some?
  }

  function BytesOf(vs: seq<Value>): seq<Bytes> {
    seq(|vs|, i requires 0 <= i < |vs| => InBytes(vs[i]))
  }

  lemma {:induction false} LiteralsConvert(vs: seq<Value>)
    ensures ParseLiterals(vs)
         == if forall i :: 0 <= i < |vs| ==> Convertible(vs[i]) then Ok(BytesOf(vs)) else Err(BadValue)
  {
    if vs != [] {
      var rest := vs[1..];
      LiteralsConvert(rest);
      assert BytesOf(vs) == [InBytes(vs[0])] + BytesOf(rest);
      assert forall i :: 0 < i < |vs| ==> vs[i] == rest[i - 1];
    }
  }

  lemma LiteralsParse(ls: seq<Literal>)
    ensures ParseLiterals(seq(|ls|, i requires 0 <= i < |ls| => LiteralJson(ls[i])))
         == if forall i :: 0 <= i < |ls| ==> !ls[i].NonFinite?
            then Ok(seq(|ls|, i requires 0 <= i < |ls| => Received(ls[i]))) else Err(BadValue)
  {
    var vs := seq(|ls|, i requires 0 <= i < |ls| => LiteralJson(ls[i]));
    LiteralsConvert(vs);
    forall i | 0 <= i < |ls| ensures Convertible(vs[i]) <==> !ls[i].NonFinite? { ConvertedExactly(ls[i]); }
    assert BytesOf(vs) == seq(|ls|, i requires 0 <= i < |ls| => Received(ls[i]));
  }

  lemma LiteralParses(l: Literal)
    ensures ParseLiteral(LiteralJson(l)) == if l.NonFinite? then Err(BadValue) else Ok(Received(l))
  {
    ConvertedExactly(l);
  }

  lemma GroupsDoNotParse(node: B.QueryNode)
    requires !node.Field?
    ensures ParseWhere(B.ToJson(node), 0) == Err(BadStructure)
  {}

  lemma {:induction false} SilentCompilesToNothing(program: seq<B.Call>)
    requires forall j :: 0 <= j < |program| ==> !B.Speaks(program[j])
    ensures B.CompileAll(program) == []
  {
    if program != [] {
      SilentCompilesToNothing(program[..|program| - 1]);
      B.CompileCorrect(program[|program| - 1], _ => true);
    }
  }

  lemma {:induction false} OnlyConditionCompiles(program: seq<B.Call>, i: nat)
    requires OnlyCondition(program, i)
    ensures B.CompileAll(program) == B.Compile(program[i])
  {
    var n := |program| - 1;
    var init := program[..n];
    if i == n {
      SilentCompilesToNothing(init);
    } else {
      assert OnlyCondition(init, i);
      OnlyConditionCompiles(init, i);
      B.CompileCorrect(program[n], _ => true);
    }
  }

  /** A program that compiles to a single field condition has that condition as its only call that speaks. */
  lemma {:induction false} SingleFieldIsOnlyCondition(program: seq<B.Call>) returns (i: nat)
    requires |B.CompileAll(program)| == 1 && B.CompileAll(program)[0].Field?
    ensures OnlyCondition(program, i)
  {
    var n := |program| - 1;
    var init, last := program[..n], program[n];
    B.CompileCorrect(last, _ => true);
    B.CompileAllCorrect(init, _ => true);
    if B.Speaks(last) {
      i := n;
      assert B.Compile(last) == B.CompileAll(program);
      forall j | 0 <= j < |program| && j != i ensures !B.Speaks(program[j]) { assert init[j] == program[j]; }
    } else {
      i := SingleFieldIsOnlyCondition(init);
      assert program[i] == init[i];
      forall j | 0 <= j < |program| && j != i ensures !B.Speaks(program[j]) {
        if j < n { assert init[j] == program[j]; }
      }
    }
  }

  lemma {:induction false} SortsRoundTrip(sorts: seq<B.Sort>)
    ensures ParseSorts(B.SortsJson(sorts)) == sorts
  {
    if sorts != [] {
      SortsRoundTrip(sorts[1..]);
      assert B.SortsJson(sorts)[1..] == B.SortsJson(sorts[1..]);
      assert ParseSort(B.SortJson(sorts[0])) == [sorts[0]];
    }
  }

  lemma ClauseOfOnlyCondition(program: seq<B.Call>, i: nat)
    requires OnlyCondition(program, i)
    ensures ParseWhere(B.WhereClause(B.CompileAll(program)), 0)
         == if Readable(program[i].condition) then Ok(Field(program[i].field, Read(program[i].condition)))
            else Err(BadValue)
  {
    OnlyConditionCompiles(program, i);
    SingleFieldParses(program[i].field, program[i].condition);
  }

  lemma ClauseOfAnythingElse(program: seq<B.Call>)
    requires forall i: nat :: !OnlyCondition(program, i)
    ensures ParseWhere(B.WhereClause(B.CompileAll(program)), 0) == Err(BadStructure)
  {
    var nodes := B.CompileAll(program);
    if |nodes| == 0 {
      assert B.WhereClause(nodes) == Object(map[]);
    } else if |nodes| == 1 {
      if nodes[0].Field? { var i := SingleFieldIsOnlyCondition(program); }
      GroupsDoNotParse(nodes[0]);
    } else {
      GroupsDoNotParse(B.And(nodes));
    }
  }

  /**
   The host accepts a builder's query exactly when the builder made one plain condition, other than
   a similarity search and of finite literals; it then reads back the path, the condition with its
   literals as bytes, the page and the sort order. Groups, several conditions and no condition at all are turned away.
   */
  lemma HostAcceptsExactlyDeliverable(path: string, program: seq<B.Call>, limit: Option<nat>, offset: Option<nat>,
                                      sorts: seq<B.Sort>)
    ensures ParseQuery(B.QueryJson(path, B.CompileAll(program), limit, offset, sorts)).Ok? <==> Deliverable(program)
    ensures forall i: nat :: OnlyCondition(program, i) && Readable(program[i].condition) ==>
              ParseQuery(B.QueryJson(path, B.CompileAll(program), limit, offset, sorts))
              == Ok(Query(path, Some(Field(program[i].field, Read(program[i].condition))), limit, offset, sorts))
  {
    QueryJsonMembers(path, B.CompileAll(program), limit, offset, sorts);
    if i: nat :| OnlyCondition(program, i) {
      ClauseOfOnlyCondition(program, i);
      assert forall j: nat :: OnlyCondition(program, j) ==> j == i;
    } else {
      ClauseOfAnythingElse(program);
    }
  }

  /** A condition is read as intended exactly when its literals arrive. */
  lemma ReadAsIntendedExactly(condition: B.Condition)
    requires Readable(condition)
    ensures Read(condition) == Intended(condition) <==> Faithful(condition)
  {
    match condition
    case Eq(l) => LiteralArrives(l);
    case Gt(l) => LiteralArrives(l);
    case Lt(l) => LiteralArrives(l);
    case Between(low, high) =>
      LiteralArrives(low);
      LiteralArrives(high);
    case In(ls) =>
      LiteralsArrive(ls);
      assert Read(condition).values == seq(|ls|, i requires 0 <= i < |ls| => Received(ls[i]));
      assert Intended(condition).values == seq(|ls|, i requires 0 <= i < |ls| => Meant(ls[i]));
    case _ =>
  }

  lemma LiteralArrives(l: Literal)
    requires !l.NonFinite?
    ensures Received(l) == Meant(l) <==> Arrives(l)
  {
    ConvertedExactly(l);
    ArrivesExactly(l);
  }

  lemma LiteralsArrive(ls: seq<Literal>)
    requires forall i :: 0 <= i < |ls| ==> !ls[i].NonFinite?
    ensures seq(|ls|, i requires 0 <= i < |ls| => Received(ls[i]))
              == seq(|ls|, i requires 0 <= i < |ls| => Meant(ls[i]))
            <==> forall i :: 0 <= i < |ls| ==> Arrives(ls[i])
  {
    var received := seq(|ls|, i requires 0 <= i < |ls| => Received(ls[i]));
    var meant := seq(|ls|, i requires 0 <= i < |ls| => Meant(ls[i]));
    forall i | 0 <= i < |ls| ensures received[i] == meant[i] <==> Arrives(ls[i]) { LiteralArrives(ls[i]); }
  }

  /**
   The host searches the index for what the builder meant exactly when the query is one plain
   condition all of whose literals arrive: no raw bytes but the empty ones, and no float but plus zero.
   */
  lemma HostReadsAsIntendedExactly(path: string, program: seq<B.Call>, limit: Option<nat>, offset: Option<nat>,
                                   sorts: seq<B.Sort>, i: nat)
    requires OnlyCondition(program, i)
    ensures ParseQuery(B.QueryJson(path, B.CompileAll(program), limit, offset, sorts))
            == Ok(Query(path, Some(Field(program[i].field, Intended(program[i].condition))), limit, offset, sorts))
            <==> Faithful(program[i].condition)
  {
    HostAcceptsExactlyDeliverable(path, program, limit, offset, sorts);
    var condition := program[i].condition;
    if Readable(condition) {
      ReadAsIntendedExactly(condition);
    } else {
      NotDeliverable(program, i);
    }
  }

  lemma NotDeliverable(program: seq<B.Call>, i: nat)
    requires OnlyCondition(program, i) && !Readable(program[i].condition)
    ensures !Deliverable(program) && !Faithful(program[i].condition)
  {
    assert forall j: nat :: OnlyCondition(program, j) ==> j == i;
  }

  lemma QueryJsonMembers(path: string, nodes: seq<B.QueryNode>, limit: Option<nat>, offset: Option<nat>,
                         sorts: seq<B.Sort>)
    ensures var json := B.QueryJson(path, nodes, limit, offset, sorts);
            && Get(json, "path") == Some(Text(path))
            && Get(json, "where") == Some(B.WhereClause(nodes))
            && AsU64(Get(json, "limit")) == limit
            && AsU64(Get(json, "offset")) == offset
            && (match Get(json, "order_by") case Some(Array(vs)) => ParseSorts(vs) case _ => []) == sorts
  {
    SortsRoundTrip(sorts);
  }

  // ---------------------------------------------------------------------------
  // The host's own wire format
  // ---------------------------------------------------------------------------

  function OperationJson(op: QueryOp<Value>): map<string, Value> {
    match op
    case Eq(v) => map["op" := Text("eq"), "value" := v]
    case Gt(v) => map["op" := Text("gt"), "value" := v]
    case Lt(v) => map["op" := Text("lt"), "value" := v]
    case Between(low, high) => map["op" := Text("between"), "value" := low, "value2" := high]
    case In(vs) => map["op" := Text("in"), "value" := Array(vs)]
    case Contains(t) => map["op" := Text("contains"), "value" := Text(t)]
    case Similar(t, threshold) => map["op" := Text("similar"), "value" := Text(t), "threshold" := Decimal(threshold)]
    case Phonetic(t) => map["op" := Text("phonetic"), "value" := Text(t)]
    case Fuzzy(t, options) =>
      map["op" := Text("fuzzy"), "value" := Text(t),
          "fuzziness" := if options.edits.Some? then Integer(options.edits.value) else Text("auto"),
          "algorithm" := Text(if options.jaroWinkler then "jaro_winkler" else "damerau_levenshtein")]
    case Match(t) => map["op" := Text("match"), "value" := Text(t)]
  }

  function NodeJson(node: Node<Value>): Value {
    match node
    case Field(field, op) => Object(OperationJson(op)["field" := Text(field)])
    case And(children) => Object(map["and" := Array(NodesJson(children))])
    case Or(children) => Object(map["or" := Array(NodesJson(children))])
    case Not(child) => Object(map["not" := NodeJson(child)])
  }

  function NodesJson(nodes: seq<Node<Value>>): (vs: seq<Value>)
    ensures |vs| == |nodes|
  {
    if nodes == [] then [] else [NodeJson(nodes[0])] + NodesJson(nodes[1..])
  }

  /** The operation with its literals converted. */
  function Converted(op: QueryOp<Value>): QueryOp<Bytes> {
    match op
    case Eq(v) => Eq(InBytes(v))
    case Gt(v) => Gt(InBytes(v))
    case Lt(v) => Lt(InBytes(v))
    case Between(low, high) => Between(InBytes(low), InBytes(high))
    case In(vs) => In(BytesOf(vs))
    case Contains(t) => Contains(t)
    case Similar(t, threshold) => Similar(t, threshold)
    case Phonetic(t) => Phonetic(t)
    case Fuzzy(t, options) => Fuzzy(t, options)
    case Match(t) => Match(t)
  }

  function ConvertedNode(node: Node<Value>): Node<Bytes> {
    match node
    case Field(field, op) => Field(field, Converted(op))
    case And(children) => And(ConvertedNodes(children))
    case Or(children) => Or(ConvertedNodes(children))
    case Not(child) => Not(ConvertedNode(child))
  }

  function ConvertedNodes(nodes: seq<Node<Value>>): seq<Node<Bytes>> {
    if nodes == [] then [] else [ConvertedNode(nodes[0])] + ConvertedNodes(nodes[1..])
  }

  /** The literals of every field condition are ones the host converts. */
  predicate WellFormed(node: Node<Value>) {
    match node
    case Field(_, Eq(v)) => Convertible(v)
    case Field(_, Gt(v)) => Convertible(v)
    case Field(_, Lt(v)) => Convertible(v)
    case Field(_, Between(low, high)) => Convertible(low) && Convertible(high)
    case Field(_, In(vs)) => forall i :: 0 <= i < |vs| ==> Convertible(vs[i])
    case Field(_, _) => true
    case And(children) => forall i :: 0 <= i < |children| ==> WellFormed(children[i])
    case Or(children) => forall i :: 0 <= i < |children| ==> WellFormed(children[i])
    case Not(child) => WellFormed(child)
  }

  /** Every path down the tree has at most `n` steps. */
  predicate NoDeeperThan(node: Node<Value>, n: int) {
    n >= 0 &&
    match node
    case Field(_, _) => true
    case And(children) => forall i :: 0 <= i < |children| ==> NoDeeperThan(children[i], n - 1)
    case Or(children) => forall i :: 0 <= i < |children| ==> NoDeeperThan(children[i], n - 1)
    case Not(child) => NoDeeperThan(child, n - 1)
  }

  lemma ScalarRoundTrip(field: string, op: QueryOp<Value>)
    requires WellFormed(Field(field, op)) && (op.Eq? || op.Gt? || op.Lt?)
    ensures ParseSingleField(NodeJson(Field(field, op))) == Ok(Field(field, Converted(op)))
  {}

  lemma RangeRoundTrip(field: string, low: Value, high: Value)
    requires Convertible(low) && Convertible(high)
    ensures ParseSingleField(NodeJson(Field(field, Between(low, high))))
         == Ok(Field(field, Converted(Between(low, high))))
  {}

  lemma ListRoundTrip(field: string, values: seq<Value>)
    requires WellFormed(Field(field, In(values)))
    ensures ParseSingleField(NodeJson(Field(field, In(values)))) == Ok(Field(field, Converted(In(values))))
  {
    LiteralsConvert(values);
  }

  lemma TextRoundTrip(field: string, op: QueryOp<Value>)
    requires op.Contains? || op.Phonetic? || op.Match?
    ensures ParseSingleField(NodeJson(Field(field, op))) == Ok(Field(field, Converted(op)))
  {}

  lemma InexactRoundTrip(field: string, op: QueryOp<Value>)
    requires op.Similar? || op.Fuzzy?
    ensures ParseSingleField(NodeJson(Field(field, op))) == Ok(Field(field, Converted(op)))
  {}

  lemma FieldRoundTrip(field: string, op: QueryOp<Value>)
    requires WellFormed(Field(field, op))
    ensures ParseSingleField(NodeJson(Field(field, op))) == Ok(Field(field, Converted(op)))
  {
    if op.In? {
      ListRoundTrip(field, op.values);
    } else if op.Between? {
      RangeRoundTrip(field, op.low, op.high);
    } else if op.Eq? || op.Gt? || op.Lt? {
      ScalarRoundTrip(field, op);
    } else if op.Similar? || op.Fuzzy? {
      InexactRoundTrip(field, op);
    } else {
      TextRoundTrip(field, op);
    }
  }

  lemma AndParses(vs: seq<Value>, depth: nat)
    requires depth <= MAX_WHERE_CLAUSE_DEPTH
    ensures var v := Object(map["and" := Array(vs)]);
            forall i :: 0 <= i < |vs| ==> (vs[i] < v)
    ensures var v := Object(map["and" := Array(vs)]); var children := ParseWhereAll(v, vs, depth + 1);
            ParseWhere(v, depth) == if children.Ok? then Ok(And(children.value)) else Err(children.error)
  {
    var v := Object(map["and" := Array(vs)]);
    assert v.members["and"] == Array(vs);
  }

  lemma OrParses(vs: seq<Value>, depth: nat)
    requires depth <= MAX_WHERE_CLAUSE_DEPTH
    ensures var v := Object(map["or" := Array(vs)]);
            forall i :: 0 <= i < |vs| ==> (vs[i] < v)
    ensures var v := Object(map["or" := Array(vs)]); var children := ParseWhereAll(v, vs, depth + 1);
            ParseWhere(v, depth) == if children.Ok? then Ok(Or(children.value)) else Err(children.error)
  {
    var v := Object(map["or" := Array(vs)]);
    assert v.members["or"] == Array(vs) && Get(v, "and").None?;
  }

  lemma NegationParses(child: Value, depth: nat)
    requires depth <= MAX_WHERE_CLAUSE_DEPTH
    ensures var inner := ParseWhere(child, depth + 1);
            ParseWhere(Object(map["not" := child]), depth)
            == if inner.Ok? then Ok(Not(inner.value)) else Err(inner.error)
  {
    var v := Object(map["not" := child]);
    assert Get(v, "and").None? && Get(v, "or").None? && v.members["not"] == child;
  }

  lemma FieldParses(field: string, op: QueryOp<Value>, depth: nat)
    requires depth <= MAX_WHERE_CLAUSE_DEPTH && WellFormed(Field(field, op))
    ensures ParseWhere(NodeJson(Field(field, op)), depth) == Ok(Field(field, Converted(op)))
  {
    FieldRoundTrip(field, op);
    var v := NodeJson(Field(field, op));
    assert Get(v, "and").None? && Get(v, "or").None? && Get(v, "not").None? && Get(v, "field").Some?;
  }

  lemma {:induction false} NodeRoundTrip(node: Node<Value>, depth: nat)
    requires WellFormed(node)
    ensures ParseWhere(NodeJson(node), depth)
         == if NoDeeperThan(node, MAX_WHERE_CLAUSE_DEPTH - depth) then Ok(ConvertedNode(node)) else Err(TooDeep)
    decreases node, 2
  {
    if depth <= MAX_WHERE_CLAUSE_DEPTH {
      match node
      case Field(field, operation) => FieldParses(field, operation, depth);
      case And(_) => AndRoundTrip(node, depth);
      case Or(_) => OrRoundTrip(node, depth);
      case Not(child) =>
        NegationParses(NodeJson(child), depth);
        NodeRoundTrip(child, depth + 1);
    }
  }

  lemma {:induction false} AndRoundTrip(node: Node<Value>, depth: nat)
    requires WellFormed(node) && node.And? && depth <= MAX_WHERE_CLAUSE_DEPTH
    ensures ParseWhere(NodeJson(node), depth)
         == if NoDeeperThan(node, MAX_WHERE_CLAUSE_DEPTH - depth) then Ok(ConvertedNode(node)) else Err(TooDeep)
    decreases node, 1
  {
    var vs := NodesJson(node.children);
    AndParses(vs, depth);
    assert NodeJson(node) == Object(map["and" := Array(vs)]);
    NodesRoundTrip(node, NodeJson(node), node.children, depth + 1);
  }

  lemma {:induction false} OrRoundTrip(node: Node<Value>, depth: nat)
    requires WellFormed(node) && node.Or? && depth <= MAX_WHERE_CLAUSE_DEPTH
    ensures ParseWhere(NodeJson(node), depth)
         == if NoDeeperThan(node, MAX_WHERE_CLAUSE_DEPTH - depth) then Ok(ConvertedNode(node)) else Err(TooDeep)
    decreases node, 1
  {
    var vs := NodesJson(node.children);
    OrParses(vs, depth);
    assert NodeJson(node) == Object(map["or" := Array(vs)]);
    NodesRoundTrip(node, NodeJson(node), node.children, depth + 1);
  }

  lemma {:induction false} NodesRoundTrip(parent: Node<Value>, whole: Value, nodes: seq<Node<Value>>, depth: nat)
    requires forall i :: 0 <= i < |nodes| ==> nodes[i] < parent && WellFormed(nodes[i])
    requires forall i :: 0 <= i < |nodes| ==> (NodesJson(nodes)[i] < whole)
    ensures ParseWhereAll(whole, NodesJson(nodes), depth)
         == if forall i :: 0 <= i < |nodes| ==> NoDeeperThan(nodes[i], MAX_WHERE_CLAUSE_DEPTH - depth)
            then Ok(ConvertedNodes(nodes))
            else Err(TooDeep)
    decreases parent, 0, |nodes|
  {
    if nodes != [] {
      NodeRoundTrip(nodes[0], depth);
      assert NodesJson(nodes)[0] == NodeJson(nodes[0]) && NodesJson(nodes)[1..] == NodesJson(nodes[1..]);
      forall i | 0 <= i < |nodes[1..]| ensures NodesJson(nodes[1..])[i] < whole {
        assert NodesJson(nodes[1..])[i] == NodesJson(nodes)[i + 1];
      }
      NodesRoundTrip(parent, whole, nodes[1..], depth);
      assert [nodes[0]] + nodes[1..] == nodes;
      if forall i :: 0 <= i < |nodes[1..]| ==> NoDeeperThan(nodes[1..][i], MAX_WHERE_CLAUSE_DEPTH - depth) {
        assert forall i :: 1 <= i < |nodes| ==> nodes[i] == nodes[1..][i - 1];
      }
    }
  }

  /** A similarity search that names no number as its threshold gets three tenths. */
  lemma ThresholdDefault(field: string, text: string, other: map<string, Value>)
    requires "threshold" in other ==> !other["threshold"].Integer? && !other["threshold"].Decimal?
    ensures ParseSingleField(Object(other["field" := Text(field)]["op" := Text("similar")]["value" := Text(text)]))
         == Ok(Field(field, Similar(text, 0.3)))
  {}

  /** The host reads any well-formed tree written in its own format, literals converted, exactly up to 32 levels. */
  lemma HostFormatRoundTrip(node: Node<Value>)
    requires WellFormed(node)
    ensures ParseWhere(NodeJson(node), 0) == Ok(ConvertedNode(node)) <==> NoDeeperThan(node, 32)
  {
    NodeRoundTrip(node, 0);
  }
}
