/** Control expressions: bounded validation with one shared node counter, and evaluation. */
module ControlExpression {
  import opened Wrappers
  import opened Strings

  const DEPTH_MAX := 12
  const NODE_MAX := 128
  const ITEM_MAX := 64
  const TEXT_MAX := 4096
  const PATH_MAX := 256
  const PART_MAX := 10

  // ----- Values -----

  datatype Number = Finite(r: real) | NaN | Infinity | MinusInfinity

  datatype Scalar = Null | Bool(b: bool) | Num(n: Number) | Text(s: string)

  datatype Json<!K(==)> = Atom(v: Scalar) | Items(items: seq<Json<K>>) | Object(fields: map<K, Json<K>>)

  /** Field names an expression may use, and any other. */
  datatype Key = Predicate | All | Any | Not | Path | Operator | Value | Unsupported(text: string)

  type Expression = Json<Key>

  type Document = Json<string>

  /** The guard and the search of the regular expression helper. */
  datatype Regex = Regex(guard: string -> bool, search: (string, string) -> bool)

  // ----- Paths -----

  /** `s.split(".")` */
  function Split(s: string): (r: seq<string>)
    ensures r != []
  {
    if s == "" then [""]
    else
      var front, c := Split(s[..|s| - 1]), s[|s| - 1];
      if c == '.' then front + [""] else front[|front| - 1 := front[|front| - 1] + [c]]
  }

  predicate NoDots(parts: seq<string>) {
    forall p :: p in parts ==> '.' !in p
  }

  /** Splitting loses nothing and leaves no dot. */
  lemma {:induction false} SplitMeaning(s: string)
    ensures Join(Split(s), ".") == s && NoDots(Split(s))
  {
    if s != "" {
      var front, c := s[..|s| - 1], s[|s| - 1];
      SplitMeaning(front);
      var parts := Split(front);
      assert s == front + [c];
      if c == '.' {
        assert Split(s)[..|parts|] == parts;
      } else {
        JoinExtend(parts, [c]);
      }
    }
  }

  lemma JoinExtend(parts: seq<string>, t: string)
    requires parts != []
    ensures Join(parts[|parts| - 1 := parts[|parts| - 1] + t], ".") == Join(parts, ".") + t
  {
    var longer := parts[|parts| - 1 := parts[|parts| - 1] + t];
    assert longer[..|parts| - 1] == parts[..|parts| - 1];
  }

  lemma SplitStep(s: string, c: char)
    ensures var parts := Split(s);
      Split(s + [c]) == if c == '.' then parts + [""] else parts[|parts| - 1 := parts[|parts| - 1] + [c]]
  {
    assert (s + [c])[..|s|] == s;
  }

  lemma ShorterLast(parts: seq<string>)
    requires parts != [] && parts[|parts| - 1] != "" && NoDots(parts)
    ensures var last := parts[|parts| - 1];
      var shorter := parts[|parts| - 1 := last[..|last| - 1]];
      NoDots(shorter) && last[|last| - 1] != '.' && Join(parts, ".") == Join(shorter, ".") + [last[|last| - 1]]
      && parts == shorter[|parts| - 1 := shorter[|parts| - 1] + [last[|last| - 1]]]
  {
    var last := parts[|parts| - 1];
    var init, c := last[..|last| - 1], last[|last| - 1];
    assert last == init + [c] && last in parts;
    var shorter := parts[|parts| - 1 := init];
    JoinExtend(shorter, [c]);
    forall p | p in shorter ensures '.' !in p {
      assert p in parts || p == init;
    }
  }

  /** Parts without dots are what their joined form splits into. */
  lemma {:induction false} SplitJoin(parts: seq<string>)
    requires parts != [] && NoDots(parts)
    ensures Split(Join(parts, ".")) == parts
    decreases |parts|, |parts[|parts| - 1]|
  {
    var front, last := parts[..|parts| - 1], parts[|parts| - 1];
    if last != "" {
      hide NoDots, Join, Split;
      ShorterLast(parts);
      var shorter := parts[|parts| - 1 := last[..|last| - 1]];
      SplitJoin(shorter);
      SplitStep(Join(shorter, "."), last[|last| - 1]);
    } else if front != [] {
      assert parts == front + [last];
      SplitJoin(front);
      SplitStep(Join(front, "."), '.');
      assert Join(parts, ".") == Join(front, ".") + ".";
    }
  }

  predicate PartChar(c: char) {
    'A' <= c <= 'Z' || 'a' <= c <= 'z' || '0' <= c <= '9' || c == '_' || c == '-'
  }

  predicate PathFormed(path: string) {
    && 0 < |path| <= PATH_MAX
    && var parts := Split(path);
      && 2 <= |parts| <= PART_MAX && parts[0] in {"input", "context"}
      && forall i :: 1 <= i < |parts| ==> parts[i] != "" && forall c :: c in parts[i] ==> PartChar(c)
  }

  /** Exactly which lists of parts make up an accepted path. */
  lemma PathParts(parts: seq<string>)
    requires parts != [] && NoDots(parts)
    ensures PathFormed(Join(parts, ".")) <==>
      && 2 <= |parts| <= 10 && parts[0] in {"input", "context"} && |Join(parts, ".")| <= 256
      && forall i :: 1 <= i < |parts| ==> parts[i] != "" && forall c :: c in parts[i] ==>
           'A' <= c <= 'Z' || 'a' <= c <= 'z' || '0' <= c <= '9' || c == '_' || c == '-'
  {
    hide Split;
    SplitJoin(parts);
    if |parts| >= 2 {
      LongerThanFirst(parts);
    }
  }

  lemma LongerThanFirst(parts: seq<string>)
    requires |parts| >= 2
    ensures |Join(parts, ".")| > 0
  {
  }

  /** What a document holds at a path. */
  function Resolve(value: Document, parts: seq<string>): Option<Document> {
    if parts == [] then Some(value)
    else if value.Object? && parts[0] in value.fields then Resolve(value.fields[parts[0]], parts[1..])
    else None
  }

  /** `_resolve` */
  method ResolvePath(root: Document, path: string) returns (r: Option<Document>)
    ensures r == Resolve(root, Split(path))
  {
    var parts := Split(path);
    var value := root;
    for i := 0 to |parts|
      invariant Resolve(value, parts[i..]) == Resolve(root, parts)
    {
      assert parts[i..][0] == parts[i] && parts[i..][1..] == parts[i + 1..];
      if !value.Object? || parts[i] !in value.fields {
        return None;
      }
      value := value.fields[parts[i]];
    }
    return Some(value);
  }

  // ----- Well-formed expressions -----

  datatype Op =
    | Exists | Equals | NotEquals | Contains | In
    | Greater | GreaterOrEqual | Less | LessOrEqual | Matches

  function OperatorNamed(name: string): Option<Op> {
    match name
    case "exists" => Some(Exists)
    case "equals" => Some(Equals)
    case "not_equals" => Some(NotEquals)
    case "contains" => Some(Contains)
    case "in" => Some(In)
    case "greater_than" => Some(Greater)
    case "greater_than_or_equal" => Some(GreaterOrEqual)
    case "less_than" => Some(Less)
    case "less_than_or_equal" => Some(LessOrEqual)
    case "matches" => Some(Matches)
    case _ => None
  }

  predicate IsOrdering(op: Op) {
    op in {Greater, GreaterOrEqual, Less, LessOrEqual}
  }

  predicate IsText(j: Expression) {
    j.Atom? && j.v.Text?
  }

  /** `_scalar` */
  predicate ScalarFormed(j: Expression) {
    j.Atom? && (j.v.Text? ==> |j.v.s| <= TEXT_MAX) && (j.v.Num? ==> j.v.n.Finite?)
  }

  predicate OperandFormed(op: Op, raw: map<Key, Expression>, rx: Regex) {
    if op == Exists then Value !in raw
    else
      && Value in raw
      && var value := raw[Value];
        if op == In then
          value.Items? && 1 <= |value.items| <= ITEM_MAX && forall x :: x in value.items ==> ScalarFormed(x)
        else
          && ScalarFormed(value)
          && (op == Contains ==> IsText(value))
          && (IsOrdering(op) ==> value.v.Num?)
          && (op == Matches ==> IsText(value) && rx.guard(value.v.s))
  }

  predicate TestFormed(test: Expression, rx: Regex) {
    && test.Object? && test.fields.Keys <= {Path, Operator, Value}
    && Path in test.fields && IsText(test.fields[Path]) && PathFormed(test.fields[Path].v.s)
    && Operator in test.fields && IsText(test.fields[Operator])
    && OperatorNamed(test.fields[Operator].v.s).Some?
    && OperandFormed(OperatorNamed(test.fields[Operator].v.s).value, test.fields, rx)
  }

  predicate HasOnly(e: Expression, k: Key) {
    e.Object? && e.fields.Keys == {k}
  }

  /** An `all` or `any` over a list. */
  predicate IsGroup(e: Expression) {
    (HasOnly(e, All) && e.fields[All].Items?) || (HasOnly(e, Any) && e.fields[Any].Items?)
  }

  function Members(e: Expression): seq<Expression>
    requires IsGroup(e)
  {
    if HasOnly(e, All) then e.fields[All].items else e.fields[Any].items
  }

  /** Every rule of the validator except the bounds on nodes and depth. */
  predicate Formed(e: Expression, rx: Regex) {
    if HasOnly(e, Predicate) then TestFormed(e.fields[Predicate], rx)
    else if HasOnly(e, Not) then Formed(e.fields[Not], rx)
    else IsGroup(e) && 1 <= |Members(e)| <= ITEM_MAX && forall x :: x in Members(e) ==> Formed(x, rx)
  }

  function Nodes(e: Expression): nat
    decreases e, 1
  {
    1 + if HasOnly(e, Not) then Nodes(e.fields[Not]) else if IsGroup(e) then NodesAll(Members(e)) else 0
  }

  function NodesAll(es: seq<Expression>): nat
    decreases es, 0
  {
    if es == [] then 0 else NodesAll(es[..|es| - 1]) + Nodes(es[|es| - 1])
  }

  /** The root has depth 1. */
  function Depth(e: Expression): nat
    decreases e, 1
  {
    1 + if HasOnly(e, Not) then Depth(e.fields[Not]) else if IsGroup(e) then DepthAll(Members(e)) else 0
  }

  function DepthAll(es: seq<Expression>): nat
    decreases es, 0
  {
    if es == [] then 0
    else
      var a, b := DepthAll(es[..|es| - 1]), Depth(es[|es| - 1]);
      if a < b then b else a
  }

  predicate Accepted(e: Expression, rx: Regex) {
    Formed(e, rx) && Nodes(e) <= NODE_MAX && Depth(e) <= DEPTH_MAX
  }

  // ----- Validation -----

  predicate Fits(e: Expression, depth: nat, counted: nat, rx: Regex) {
    Formed(e, rx) && counted + Nodes(e) <= NODE_MAX && depth + Depth(e) <= DEPTH_MAX + 1
  }

  /** The first n expressions together. */
  predicate FirstFit(es: seq<Expression>, n: nat, depth: nat, counted: nat, rx: Regex)
    requires n <= |es|
  {
    && (forall x :: x in es[..n] ==> Formed(x, rx))
    && counted + NodesAll(es[..n]) <= NODE_MAX && depth + DepthAll(es[..n]) <= DEPTH_MAX + 1
  }

  lemma NextFits(es: seq<Expression>, i: nat, depth: nat, counted: nat, rx: Regex)
    requires i < |es| && FirstFit(es, i, depth, counted, rx)
    ensures NodesAll(es[..i + 1]) == NodesAll(es[..i]) + Nodes(es[i])
    ensures FirstFit(es, i + 1, depth, counted, rx) <==> Fits(es[i], depth, counted + NodesAll(es[..i]), rx)
  {
    hide Formed, Nodes, Depth;
    assert es[..i + 1][..i] == es[..i];
    assert es[..i + 1] == es[..i] + [es[i]];
  }

  lemma {:induction false} LaterFails(es: seq<Expression>, i: nat, depth: nat, counted: nat, rx: Regex)
    requires i <= |es| && !FirstFit(es, i, depth, counted, rx)
    ensures !FirstFit(es, |es|, depth, counted, rx)
    decreases |es| - i
  {
    hide Formed, Nodes, Depth;
    if i < |es| {
      assert es[..i + 1][..i] == es[..i];
      assert es[..i + 1] == es[..i] + [es[i]];
      LaterFails(es, i + 1, depth, counted, rx);
    }
  }

  /** The traversal of `validate_control_expression_v2` with the counter it closes over. */
  class Visitor {
    var nodes: nat
    const rx: Regex

    constructor (rx: Regex)
      ensures nodes == 0 && this.rx == rx
    {
      nodes := 0;
      this.rx := rx;
    }

    /** Stopping at the first fault, whichever bound it breaks, accepts exactly the trees within all
        of them, and returns an equal tree. */
    method Visit(e: Expression, depth: nat) returns (r: Option<Expression>)
      modifies `nodes
      ensures r.Some? <==> Fits(e, depth, old(nodes), rx)
      ensures r.Some? ==> r.value == e && nodes == old(nodes) + Nodes(e)
      decreases e, 1
    {
      hide *;
      FitsBounds(e, depth, nodes, rx);
      nodes := nodes + 1;
      if nodes > NODE_MAX || depth > DEPTH_MAX {
        return None;
      }
      if !e.Object? {
        return None;
      }
      var branches := {Predicate, All, Any, Not} * e.fields.Keys;
      if |branches| != 1 || |e.fields| != 1 {
        return None;
      }
      var branch :| branch in branches;
      SingleKey(e, branch);
      BranchFits(e, branch, depth, nodes, rx);
      var raw := e.fields[branch];
      if branch == Predicate {
        return if TestFormed(raw, rx) then Some(Object(map[Predicate := raw])) else None;
      }
      if branch == Not {
        var child := Visit(raw, depth + 1);
        return if child.Some? then Some(Object(map[Not := child.value])) else None;
      }
      if !raw.Items? || !(1 <= |raw.items| <= ITEM_MAX) {
        return None;
      }
      var items := VisitAll(raw.items, depth + 1);
      return if items.Some? then Some(Object(map[branch := Items(items.value)])) else None;
    }

    /** The list comprehension over the items of `all` or `any`. */
    method VisitAll(es: seq<Expression>, depth: nat) returns (r: Option<seq<Expression>>)
      requires nodes <= NODE_MAX && depth <= DEPTH_MAX + 1
      modifies `nodes
      ensures r.Some? <==> FirstFit(es, |es|, depth, old(nodes), rx)
      ensures r.Some? ==> r.value == es && nodes == old(nodes) + NodesAll(es[..|es|])
      decreases es, 0
    {
      hide Formed, Nodes, Depth, Fits;
      var done: seq<Expression> := [];
      for i := 0 to |es|
        invariant done == es[..i] && FirstFit(es, i, depth, old(nodes), rx)
        invariant nodes == old(nodes) + NodesAll(es[..i])
      {
        NextFits(es, i, depth, old(nodes), rx);
        var x := Visit(es[i], depth);
        if x.None? {
          LaterFails(es, i + 1, depth, old(nodes), rx);
          return None;
        }
        done := done + [x.value];
      }
      return Some(done);
    }
  }

  lemma SingleKey(e: Expression, k: Key)
    requires e.Object? && k in e.fields && |e.fields| == 1
    ensures HasOnly(e, k) && e == Object(map[k := e.fields[k]])
  {
    assert |e.fields.Keys - {k}| == 0;
    assert e.fields == map[k := e.fields[k]];
  }

  lemma OneBranch(e: Expression, k: Key)
    requires k in {Predicate, All, Any, Not} && HasOnly(e, k)
    ensures |{Predicate, All, Any, Not} * e.fields.Keys| == 1 && |e.fields| == 1
  {
    assert {Predicate, All, Any, Not} * e.fields.Keys == {k};
    assert |e.fields| == |e.fields.Keys|;
  }

  lemma FitsBounds(e: Expression, depth: nat, counted: nat, rx: Regex)
    ensures Fits(e, depth, counted, rx) ==>
      && counted < NODE_MAX && depth <= DEPTH_MAX
      && e.Object? && |{Predicate, All, Any, Not} * e.fields.Keys| == 1 && |e.fields| == 1
  {
    hide TestFormed;
    if Fits(e, depth, counted, rx) {
      OneBranch(e, if HasOnly(e, Predicate) then Predicate else if HasOnly(e, Not) then Not
                   else if HasOnly(e, All) then All else Any);
    }
  }

  /** What fits below a node that has been counted. */
  lemma BranchFits(e: Expression, k: Key, depth: nat, counted: nat, rx: Regex)
    requires HasOnly(e, k) && k in {Predicate, All, Any, Not}
    requires 0 < counted <= NODE_MAX && depth <= DEPTH_MAX
    ensures k == Predicate ==> Nodes(e) == 1 && (Fits(e, depth, counted - 1, rx) <==> TestFormed(e.fields[k], rx))
    ensures k == Not ==>
      && Nodes(e) == 1 + Nodes(e.fields[k])
      && (Fits(e, depth, counted - 1, rx) <==> Fits(e.fields[k], depth + 1, counted, rx))
    ensures k in {All, Any} ==>
      (Fits(e, depth, counted - 1, rx) <==>
        && e.fields[k].Items? && 1 <= |e.fields[k].items| <= ITEM_MAX
        && FirstFit(e.fields[k].items, |e.fields[k].items|, depth + 1, counted, rx))
    ensures k in {All, Any} && e.fields[k].Items? ==>
      Nodes(e) == 1 + NodesAll(e.fields[k].items[..|e.fields[k].items|])
  {
    hide TestFormed;
    if k in {All, Any} && e.fields[k].Items? {
      assert e.fields[k].items[..|e.fields[k].items|] == e.fields[k].items;
    }
  }

  /** The bounds on groups, lists and texts, in numbers. */
  lemma BoundsInNumbers(es: seq<Expression>, s: string, rx: Regex)
    ensures Formed(Object(map[All := Items(es)]), rx) <==> 1 <= |es| <= 64 && forall x :: x in es ==> Formed(x, rx)
    ensures Formed(Object(map[Any := Items(es)]), rx) <==> 1 <= |es| <= 64 && forall x :: x in es ==> Formed(x, rx)
    ensures OperandFormed(In, map[Value := Items(es)], rx) <==>
            1 <= |es| <= 64 && forall x :: x in es ==> ScalarFormed(x)
    ensures ScalarFormed(Atom(Text(s))) <==> |s| <= 4096
  {
    var all, either: Expression := Object(map[All := Items(es)]), Object(map[Any := Items(es)]);
    assert HasOnly(all, All) && Members(all) == es;
    assert HasOnly(either, Any) && Members(either) == es;
  }

  /** `validate_control_expression_v2` */
  method Validate(e: Expression, rx: Regex) returns (r: Option<Expression>)
    ensures r == if Accepted(e, rx) then Some(e) else None
    ensures Accepted(e, rx) <==> Formed(e, rx) && Nodes(e) <= 128 && Depth(e) <= 12
  {
    var visitor := new Visitor(rx);
    r := visitor.Visit(e, 1);
  }

  // ----- Evaluation -----

  predicate NumbersEqual(a: Number, b: Number) {
    a == b && !a.NaN?
  }

  predicate NumberLess(a: Number, b: Number) {
    match (a, b)
    case (Finite(x), Finite(y)) => x < y
    case (MinusInfinity, Finite(_)) => true
    case (MinusInfinity, Infinity) => true
    case (Finite(_), Infinity) => true
    case _ => false
  }

  /** `_scalar_equal`; a list or an object equals no scalar. */
  predicate ScalarEqual(left: Document, right: Scalar) {
    && left.Atom?
    && if left.v.Num? && right.Num? then NumbersEqual(left.v.n, right.n) else left.v == right
  }

  predicate Compare(op: Op, a: Number, b: Number)
    requires IsOrdering(op)
  {
    match op
    case Greater => NumberLess(b, a)
    case GreaterOrEqual => NumberLess(b, a) || NumbersEqual(a, b)
    case Less => NumberLess(a, b)
    case _ => NumberLess(a, b) || NumbersEqual(a, b)
  }

  predicate NumericTest(op: Op, actual: Document, operand: Expression)
    requires IsOrdering(op) && operand.Atom? && operand.v.Num?
  {
    actual.Atom? && actual.v.Num? && Compare(op, actual.v.n, operand.v.n)
  }

  /** A test on the value found at its path. */
  predicate Holds(op: Op, actual: Document, operand: Expression, rx: Regex)
    requires op != Exists && OperandFormed(op, map[Value := operand], rx)
  {
    match op
    case Exists => false
    case Equals => ScalarEqual(actual, operand.v)
    case NotEquals => !ScalarEqual(actual, operand.v)
    case Contains => actual.Atom? && actual.v.Text? && Strings.Contains(actual.v.s, operand.v.s)
    case In => exists x :: x in operand.items && ScalarEqual(actual, x.v)
    case Matches => actual.Atom? && actual.v.Text? && rx.search(operand.v.s, actual.v.s)
    case Greater => NumericTest(op, actual, operand)
    case GreaterOrEqual => NumericTest(op, actual, operand)
    case Less => NumericTest(op, actual, operand)
    case LessOrEqual => NumericTest(op, actual, operand)
  }

  function PathOf(test: Expression, rx: Regex): string
    requires TestFormed(test, rx)
  {
    test.fields[Path].v.s
  }

  predicate EvalTest(test: Expression, found: Option<Document>, rx: Regex)
    requires TestFormed(test, rx)
  {
    var op := OperatorNamed(test.fields[Operator].v.s).value;
    if op == Exists then found.Some? else found.Some? && Holds(op, found.value, test.fields[Value], rx)
  }

  /** The verdict on a well-formed tree. */
  predicate Eval(e: Expression, doc: Document, rx: Regex)
    requires Formed(e, rx)
  {
    if HasOnly(e, Predicate) then
      EvalTest(e.fields[Predicate], Resolve(doc, Split(PathOf(e.fields[Predicate], rx))), rx)
    else if HasOnly(e, Not) then !Eval(e.fields[Not], doc, rx)
    else if HasOnly(e, All) then forall x :: x in Members(e) ==> Eval(x, doc, rx)
    else exists x :: x in Members(e) && Eval(x, doc, rx)
  }

  /** `evaluate_control_expression_v2`: no verdict exactly on the expressions that do not validate. */
  method Evaluate(e: Expression, doc: Document, rx: Regex) returns (r: Option<bool>)
    ensures r == if Accepted(e, rx) then Some(Eval(e, doc, rx)) else None
  {
    var valid := Validate(e, rx);
    if valid.None? {
      return None;
    }
    return Some(Eval(valid.value, doc, rx));
  }

  // ----- Laws -----

  function Negation(e: Expression): Expression {
    Object(map[Not := e])
  }

  function Group(k: Key, es: seq<Expression>): Expression {
    Object(map[k := Items(es)])
  }

  function Negations(es: seq<Expression>): seq<Expression> {
    seq(|es|, i requires 0 <= i < |es| => Negation(es[i]))
  }

  lemma NegationFormed(e: Expression, rx: Regex)
    requires Formed(e, rx)
    ensures Formed(Negation(e), rx)
    ensures forall doc :: Eval(Negation(e), doc, rx) == !Eval(e, doc, rx)
  {
    assert HasOnly(Negation(e), Not);
  }

  lemma GroupFormed(k: Key, es: seq<Expression>, rx: Regex)
    requires k in {All, Any} && 1 <= |es| <= ITEM_MAX && forall x :: x in es ==> Formed(x, rx)
    ensures Formed(Group(k, es), rx)
    ensures k == All ==> forall doc :: Eval(Group(k, es), doc, rx) <==> forall x :: x in es ==> Eval(x, doc, rx)
    ensures k == Any ==> forall doc :: Eval(Group(k, es), doc, rx) <==> exists x :: x in es && Eval(x, doc, rx)
  {
    assert HasOnly(Group(k, es), k);
    assert IsGroup(Group(k, es)) && Members(Group(k, es)) == es;
  }

  lemma NegationsFormed(es: seq<Expression>, rx: Regex)
    requires forall x :: x in es ==> Formed(x, rx)
    ensures forall y :: y in Negations(es) ==> Formed(y, rx)
    ensures forall x :: x in es ==> Negation(x) in Negations(es)
    ensures forall y :: y in Negations(es) ==> exists x :: x in es && y == Negation(x)
  {
    hide Negation, Formed;
    var ns := Negations(es);
    forall x | x in es ensures Negation(x) in ns {
      var i :| 0 <= i < |es| && es[i] == x;
      assert ns[i] == Negation(x);
    }
    forall y | y in ns ensures Formed(y, rx) && exists x :: x in es && y == Negation(x) {
      var i :| 0 <= i < |ns| && ns[i] == y;
      assert es[i] in es && y == Negation(es[i]);
      NegationFormed(es[i], rx);
    }
  }

  /** De Morgan's laws, both ways. */
  lemma DeMorgan(k: Key, es: seq<Expression>, doc: Document, rx: Regex)
    requires k in {All, Any} && 1 <= |es| <= ITEM_MAX && forall x :: x in es ==> Formed(x, rx)
    ensures Formed(Negation(Group(k, es)), rx) && Formed(Group(if k == All then Any else All, Negations(es)), rx)
    ensures Eval(Negation(Group(k, es)), doc, rx) == Eval(Group(if k == All then Any else All, Negations(es)), doc, rx)
  {
    hide Negations, Negation, Group, Formed, Eval;
    var ns := Negations(es);
    NegationsFormed(es, rx);
    GroupFormed(k, es, rx);
    NegationFormed(Group(k, es), rx);
    NegationsSize(es);
    GroupFormed(if k == All then Any else All, ns, rx);
    forall x | x in es ensures Eval(Negation(x), doc, rx) == !Eval(x, doc, rx) {
      NegationFormed(x, rx);
    }
  }

  lemma NegationsSize(es: seq<Expression>)
    ensures |Negations(es)| == |es|
  {
  }

  /** The same tree up to the order and repetition of members, at any depth. */
  ghost predicate Reordered(a: Expression, b: Expression)
    decreases a, 1
  {
    || a == b
    || (HasOnly(a, Not) && HasOnly(b, Not) && Reordered(a.fields[Not], b.fields[Not]))
    || (IsGroup(a) && IsGroup(b) && HasOnly(a, All) == HasOnly(b, All)
        && Onto(Members(a), Members(b)) && Within(Members(a), Members(b)))
  }

  ghost predicate Within(xs: seq<Expression>, ys: seq<Expression>)
    decreases xs, 0
  {
    forall x :: x in xs ==> exists y :: y in ys && Reordered(x, y)
  }

  ghost predicate Onto(xs: seq<Expression>, ys: seq<Expression>)
    decreases xs, 0
  {
    forall y :: y in ys ==> exists x :: x in xs && Reordered(x, y)
  }

  lemma NotVerdict(e: Expression, doc: Document, rx: Regex)
    requires Formed(e, rx) && HasOnly(e, Not)
    ensures Formed(e.fields[Not], rx) && Eval(e, doc, rx) == !Eval(e.fields[Not], doc, rx)
  {
  }

  lemma GroupVerdict(e: Expression, doc: Document, rx: Regex)
    requires Formed(e, rx) && IsGroup(e)
    ensures forall x :: x in Members(e) ==> Formed(x, rx)
    ensures HasOnly(e, All) ==> (Eval(e, doc, rx) <==> forall x :: x in Members(e) ==> Eval(x, doc, rx))
    ensures !HasOnly(e, All) ==> (Eval(e, doc, rx) <==> exists x :: x in Members(e) && Eval(x, doc, rx))
  {
  }

  /** Order and repetition never change a verdict. */
  lemma {:induction false} OrderFree(a: Expression, b: Expression, doc: Document, rx: Regex)
    requires Formed(a, rx) && Formed(b, rx) && Reordered(a, b)
    ensures Eval(a, doc, rx) == Eval(b, doc, rx)
    decreases a, 1
  {
    hide Eval, Formed, Within, Onto;
    if a != b {
      if HasOnly(a, Not) {
        NotVerdict(a, doc, rx);
        NotVerdict(b, doc, rx);
        OrderFree(a.fields[Not], b.fields[Not], doc, rx);
      } else {
        GroupVerdict(a, doc, rx);
        GroupVerdict(b, doc, rx);
        WithinVerdicts(Members(a), Members(b), doc, rx);
        OntoVerdicts(Members(a), Members(b), doc, rx);
      }
    }
  }

  lemma {:induction false} WithinVerdicts(xs: seq<Expression>, ys: seq<Expression>, doc: Document, rx: Regex)
    requires Within(xs, ys) && (forall x :: x in xs ==> Formed(x, rx)) && forall y :: y in ys ==> Formed(y, rx)
    ensures (forall y :: y in ys ==> Eval(y, doc, rx)) ==> forall x :: x in xs ==> Eval(x, doc, rx)
    ensures (exists x :: x in xs && Eval(x, doc, rx)) ==> exists y :: y in ys && Eval(y, doc, rx)
    decreases xs, 0
  {
    hide Eval, Formed, Reordered;
    forall x | x in xs ensures exists y :: y in ys && Eval(x, doc, rx) == Eval(y, doc, rx) {
      var y :| y in ys && Reordered(x, y);
      OrderFree(x, y, doc, rx);
    }
  }

  lemma {:induction false} OntoVerdicts(xs: seq<Expression>, ys: seq<Expression>, doc: Document, rx: Regex)
    requires Onto(xs, ys) && (forall x :: x in xs ==> Formed(x, rx)) && forall y :: y in ys ==> Formed(y, rx)
    ensures (forall x :: x in xs ==> Eval(x, doc, rx)) ==> forall y :: y in ys ==> Eval(y, doc, rx)
    ensures (exists y :: y in ys && Eval(y, doc, rx)) ==> exists x :: x in xs && Eval(x, doc, rx)
    decreases xs, 0
  {
    hide Eval, Formed, Reordered;
    forall y | y in ys ensures exists x :: x in xs && Eval(x, doc, rx) == Eval(y, doc, rx) {
      var x :| x in xs && Reordered(x, y);
      OrderFree(x, y, doc, rx);
    }
  }

  function Test(path: string, op: string, value: Expression): Expression {
    Object(map[Predicate := Object(map[Path := Atom(Text(path)), Operator := Atom(Text(op)), Value := value])])
  }

  lemma TestVerdict(path: string, op: string, value: Expression, doc: Document, rx: Regex)
    requires PathFormed(path) && OperatorNamed(op).Some? && OperatorNamed(op) != Some(Exists)
    requires OperandFormed(OperatorNamed(op).value, map[Value := value], rx)
    ensures var test, found := Test(path, op, value), Resolve(doc, Split(path));
      && Formed(test, rx)
      && (Eval(test, doc, rx) <==> found.Some? && Holds(OperatorNamed(op).value, found.value, value, rx))
  {
    hide PathFormed, Holds, Resolve, Split, OperatorNamed;
    assert HasOnly(Test(path, op, value), Predicate);
  }

  /** `not_equals` is the negation of `equals` exactly when the document has the path. */
  lemma NotEqualsNegates(path: string, value: Expression, doc: Document, rx: Regex)
    requires PathFormed(path) && ScalarFormed(value)
    ensures Formed(Test(path, "equals", value), rx) && Formed(Test(path, "not_equals", value), rx)
    ensures Formed(Negation(Test(path, "equals", value)), rx)
    ensures Eval(Negation(Test(path, "equals", value)), doc, rx) == Eval(Test(path, "not_equals", value), doc, rx)
      <==> Resolve(doc, Split(path)).Some?
  {
    hide PathFormed, Formed, Eval, Test, Negation, Resolve, Split;
    TestVerdict(path, "equals", value, doc, rx);
    TestVerdict(path, "not_equals", value, doc, rx);
    NegationFormed(Test(path, "equals", value), rx);
  }

  /** `less_than` is the negation of `greater_than_or_equal` exactly on numbers other than NaN. */
  lemma LessNegates(path: string, value: Expression, doc: Document, rx: Regex)
    requires PathFormed(path) && ScalarFormed(value) && value.v.Num?
    ensures Formed(Test(path, "less_than", value), rx) && Formed(Test(path, "greater_than_or_equal", value), rx)
    ensures Formed(Negation(Test(path, "greater_than_or_equal", value)), rx)
    ensures Eval(Negation(Test(path, "greater_than_or_equal", value)), doc, rx)
        == Eval(Test(path, "less_than", value), doc, rx)
      <==> var found := Resolve(doc, Split(path));
        found.Some? && found.value.Atom? && found.value.v.Num? && !found.value.v.n.NaN?
  {
    hide PathFormed, Formed, Eval, Test, Negation, Resolve, Split;
    TestVerdict(path, "less_than", value, doc, rx);
    TestVerdict(path, "greater_than_or_equal", value, doc, rx);
    NegationFormed(Test(path, "greater_than_or_equal", value), rx);
  }

  // ----- What each operator says of the value found -----

  /** The same kind of scalar with the same value. */
  predicate SameScalar(x: Scalar, y: Scalar) {
    match (x, y)
    case (Null, Null) => true
    case (Bool(a), Bool(b)) => a == b
    case (Text(a), Text(b)) => a == b
    case (Num(Finite(a)), Num(Finite(b))) => a == b
    case _ => false
  }

  /** The document holds this value at the path. */
  predicate HoldsAt(doc: Document, path: string, found: Document) {
    Resolve(doc, Split(path)) == Some(found)
  }

  lemma EqualityVerdicts(path: string, found: Document, y: Scalar, doc: Document, rx: Regex)
    requires PathFormed(path) && ScalarFormed(Atom(y)) && HoldsAt(doc, path, found)
    ensures var equal := found.Atom? && SameScalar(found.v, y);
      && Formed(Test(path, "equals", Atom(y)), rx) && (Eval(Test(path, "equals", Atom(y)), doc, rx) <==> equal)
      && Formed(Test(path, "not_equals", Atom(y)), rx) && (Eval(Test(path, "not_equals", Atom(y)), doc, rx) <==> !equal)
  {
    hide PathFormed, Formed, Eval, Test, Resolve, Split;
    TestVerdict(path, "equals", Atom(y), doc, rx);
    TestVerdict(path, "not_equals", Atom(y), doc, rx);
  }

  /** A number, possibly infinite, that is greater or less than the limit. */
  predicate Above(x: Document, limit: real) {
    x.Atom? && x.v.Num? && (x.v.n == Infinity || (x.v.n.Finite? && x.v.n.r > limit))
  }

  predicate Below(x: Document, limit: real) {
    x.Atom? && x.v.Num? && (x.v.n == MinusInfinity || (x.v.n.Finite? && x.v.n.r < limit))
  }

  lemma OrderVerdicts(path: string, found: Document, limit: real, doc: Document, rx: Regex)
    requires PathFormed(path) && HoldsAt(doc, path, found)
    ensures var v: Expression, at := Atom(Num(Finite(limit))), found == Atom(Num(Finite(limit)));
      && Formed(Test(path, "greater_than", v), rx) && Formed(Test(path, "greater_than_or_equal", v), rx)
      && Formed(Test(path, "less_than", v), rx) && Formed(Test(path, "less_than_or_equal", v), rx)
      && (Eval(Test(path, "greater_than", v), doc, rx) <==> Above(found, limit))
      && (Eval(Test(path, "greater_than_or_equal", v), doc, rx) <==> Above(found, limit) || at)
      && (Eval(Test(path, "less_than", v), doc, rx) <==> Below(found, limit))
      && (Eval(Test(path, "less_than_or_equal", v), doc, rx) <==> Below(found, limit) || at)
  {
    hide PathFormed, Formed, Eval, Test, Resolve, Split;
    var v: Expression := Atom(Num(Finite(limit)));
    TestVerdict(path, "greater_than", v, doc, rx);
    TestVerdict(path, "greater_than_or_equal", v, doc, rx);
    TestVerdict(path, "less_than", v, doc, rx);
    TestVerdict(path, "less_than_or_equal", v, doc, rx);
  }

  ghost predicate HasInside(s: string, t: string) {
    exists before, after :: s == before + t + after
  }

  lemma InsideIsContained(s: string, t: string)
    ensures HasInside(s, t) <==> Strings.Contains(s, t)
  {
    if before, after :| s == before + t + after {
      assert OccursAt(s, t, |before|);
    }
    if Strings.Contains(s, t) {
      var i :| 0 <= i <= |s| && OccursAt(s, t, i);
      assert s == s[..i] + t + s[i + |t|..];
    }
  }

  lemma TextVerdicts(path: string, found: Document, t: string, doc: Document, rx: Regex)
    requires PathFormed(path) && |t| <= 4096 && HoldsAt(doc, path, found)
    ensures Formed(Test(path, "contains", Atom(Text(t))), rx)
    ensures Eval(Test(path, "contains", Atom(Text(t))), doc, rx) <==>
            found.Atom? && found.v.Text? && HasInside(found.v.s, t)
    ensures Formed(Test(path, "matches", Atom(Text(t))), rx) <==> rx.guard(t)
    ensures rx.guard(t) ==>
      (Eval(Test(path, "matches", Atom(Text(t))), doc, rx) <==>
        found.Atom? && found.v.Text? && rx.search(t, found.v.s))
  {
    hide PathFormed, Resolve, Split, Strings.Contains, HasInside;
    TestVerdict(path, "contains", Atom(Text(t)), doc, rx);
    if found.Atom? && found.v.Text? {
      InsideIsContained(found.v.s, t);
    }
    if rx.guard(t) {
      TestVerdict(path, "matches", Atom(Text(t)), doc, rx);
    } else {
      assert HasOnly(Test(path, "matches", Atom(Text(t))), Predicate);
    }
  }

  lemma MembershipVerdict(path: string, found: Document, ys: seq<Scalar>, doc: Document, rx: Regex)
    requires PathFormed(path) && 1 <= |ys| <= 64 && HoldsAt(doc, path, found)
    requires forall y :: y in ys ==> ScalarFormed(Atom(y))
    ensures Formed(Test(path, "in", Items(Atoms(ys))), rx)
    ensures Eval(Test(path, "in", Items(Atoms(ys))), doc, rx) <==>
            exists y :: y in ys && found.Atom? && SameScalar(found.v, y)
  {
    hide PathFormed, Formed, Eval, Test, Resolve, Split;
    var value: Expression := Items(Atoms(ys));
    assert OperatorNamed("in") == Some(In);
    forall x | x in value.items ensures ScalarFormed(x) && x.v in ys {
      var i :| 0 <= i < |ys| && value.items[i] == x;
      assert x == Atom(ys[i]) && ys[i] in ys;
    }
    TestVerdict(path, "in", value, doc, rx);
    if y :| y in ys && found.Atom? && SameScalar(found.v, y) {
      var i :| 0 <= i < |ys| && ys[i] == y;
      assert value.items[i] == Atom(y) && value.items[i] in value.items;
      assert ScalarEqual(found, value.items[i].v);
    }
  }

  function Atoms(ys: seq<Scalar>): seq<Expression> {
    seq(|ys|, i requires 0 <= i < |ys| => Atom(ys[i]))
  }

  function ExistsTest(path: string): Expression {
    Object(map[Predicate := Object(map[Path := Atom(Text(path)), Operator := Atom(Text("exists"))])])
  }

  lemma ExistsVerdict(path: string, doc: Document, rx: Regex)
    requires PathFormed(path)
    ensures Formed(ExistsTest(path), rx)
    ensures Eval(ExistsTest(path), doc, rx) <==> exists found :: HoldsAt(doc, path, found)
  {
    hide PathFormed, Resolve, Split;
    assert HasOnly(ExistsTest(path), Predicate);
    if Resolve(doc, Split(path)).Some? {
      assert HoldsAt(doc, path, Resolve(doc, Split(path)).value);
    }
  }

  // ----- What a verdict depends on -----

  /** The paths a tree names. */
  function Paths(e: Expression, rx: Regex): set<seq<string>>
    requires Formed(e, rx)
  {
    if HasOnly(e, Predicate) then {Split(PathOf(e.fields[Predicate], rx))}
    else if HasOnly(e, Not) then Paths(e.fields[Not], rx)
    else set x, p | x in Members(e) && p in Paths(x, rx) :: p
  }

  ghost predicate Agree(a: Document, b: Document, paths: set<seq<string>>) {
    forall p :: p in paths ==> Resolve(a, p) == Resolve(b, p)
  }

  /** Documents that agree on the named paths get the same verdict. */
  lemma {:induction false} PathsDecide(e: Expression, a: Document, b: Document, rx: Regex)
    requires Formed(e, rx) && Agree(a, b, Paths(e, rx))
    ensures Eval(e, a, rx) == Eval(e, b, rx)
  {
    hide TestFormed, EvalTest, Split, Resolve;
    if HasOnly(e, Predicate) {
    } else if HasOnly(e, Not) {
      PathsDecide(e.fields[Not], a, b, rx);
    } else {
      forall x | x in Members(e) ensures Eval(x, a, rx) == Eval(x, b, rx) {
        PathsDecide(x, a, b, rx);
      }
    }
  }

  /** The document with a value written at a path; objects are made where there are none. */
  function Write(doc: Document, path: seq<string>, value: Document): Document
    decreases path
  {
    if path == [] then value
    else
      var fields := if doc.Object? then doc.fields else map[];
      var below := if path[0] in fields then fields[path[0]] else Object(map[]);
      Object(fields[path[0] := Write(below, path[1..], value)])
  }

  /** Neither path leads through the other. */
  predicate Apart(p: seq<string>, q: seq<string>) {
    p != [] && q != [] && (p[0] == q[0] ==> Apart(p[1..], q[1..]))
  }

  lemma {:induction false} ApartMeaning(p: seq<string>, q: seq<string>)
    ensures Apart(p, q) <==> !(p <= q) && !(q <= p)
  {
    if p != [] && q != [] {
      ApartMeaning(p[1..], q[1..]);
      assert p == [p[0]] + p[1..] && q == [q[0]] + q[1..];
    }
  }

  lemma {:induction false} WriteElsewhere(doc: Document, q: seq<string>, value: Document, p: seq<string>)
    requires Apart(p, q)
    ensures Resolve(Write(doc, q, value), p) == Resolve(doc, p)
    decreases p
  {
    if p[0] == q[0] {
      var fields := if doc.Object? then doc.fields else map[];
      var below := if q[0] in fields then fields[q[0]] else Object(map[]);
      WriteElsewhere(below, q[1..], value, p[1..]);
    }
  }

  /** Writing where no named path leads changes no verdict. */
  lemma UnnamedIgnored(e: Expression, doc: Document, q: seq<string>, value: Document, rx: Regex)
    requires Formed(e, rx) && forall p :: p in Paths(e, rx) ==> !(p <= q) && !(q <= p)
    ensures Eval(e, Write(doc, q, value), rx) == Eval(e, doc, rx)
  {
    hide Formed, Eval, Paths, Write, Resolve;
    forall p | p in Paths(e, rx) ensures Resolve(Write(doc, q, value), p) == Resolve(doc, p) {
      ApartMeaning(p, q);
      WriteElsewhere(doc, q, value, p);
    }
    PathsDecide(e, Write(doc, q, value), doc, rx);
  }
}
