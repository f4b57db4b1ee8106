/** Policy templates: validation with one shared node counter, and rendering of placeholders. */
module PolicyTemplate {
  import opened Wrappers
  import opened Documents
  import opened StrippedText

  const NODE_MAX := 4096
  const DEPTH_MAX := 16
  const WIDTH_MAX := 256
  const PARAMETER_MAX := 128
  const TEXT_MAX := 2048
  const NAME_MAX := 256

  /** A JSON value; an object is a list of keys and a list of values. */
  datatype Tree =
    | Empty
    | Flag(b: bool)
    | Number(n: int)
    | Fraction
    | Literal(s: string)
    | Array(items: seq<Tree>)
    | Object(keys: seq<string>, items: seq<Tree>)

  // ----- Size and shape -----

  function Nodes(t: Tree): nat
    decreases t, 1
  {
    1 + if t.Array? || t.Object? then NodesAll(t.items) else 0
  }

  function NodesAll(ts: seq<Tree>): nat
    decreases ts, 0
  {
    if ts == [] then 0 else NodesAll(ts[..|ts| - 1]) + Nodes(ts[|ts| - 1])
  }

  function Height(t: Tree): nat
    decreases t, 1
  {
    if t.Array? || t.Object? then HeightAll(t.items) else 0
  }

  /** One more than the highest of the trees. */
  function HeightAll(ts: seq<Tree>): nat
    decreases ts, 0
  {
    if ts == [] then 0
    else
      var a, b := HeightAll(ts[..|ts| - 1]), Height(ts[|ts| - 1]) + 1;
      if a < b then b else a
  }

  /** Everything `_validate_json` asks of a value except the node count. */
  predicate WellFormed(t: Tree, depth: nat) {
    depth <= DEPTH_MAX &&
    match t
    case Empty => true
    case Flag(_) => true
    case Number(n) => -MAX_SAFE <= n <= MAX_SAFE
    case Fraction => false
    case Literal(s) => TextFits(s, TEXT_MAX)
    case Array(items) => |items| <= WIDTH_MAX && forall x :: x in items ==> WellFormed(x, depth + 1)
    case Object(keys, items) =>
      && |items| <= WIDTH_MAX && |keys| == |items|
      && (forall k :: k in keys ==> TextFits(k, NAME_MAX))
      && forall x :: x in items ==> WellFormed(x, depth + 1)
  }

  predicate Valid(t: Tree) {
    WellFormed(t, 0) && Nodes(t) <= NODE_MAX
  }

  // ----- Validation -----

  /** The list holding the shared node counter. */
  class Counter {
    var n: nat

    constructor ()
      ensures n == 0
    {
      n := 0;
    }
  }

  predicate Accepts(t: Tree, depth: nat, counted: nat) {
    WellFormed(t, depth) && counted + Nodes(t) <= NODE_MAX
  }

  /** The first n items together. */
  predicate AcceptsFirst(ts: seq<Tree>, n: nat, depth: nat, counted: nat)
    requires n <= |ts|
  {
    (forall x :: x in ts[..n] ==> WellFormed(x, depth)) && counted + NodesAll(ts[..n]) <= NODE_MAX
  }

  /** `_validate_json`. Failing at the first value over the bound accepts exactly the values whose
      total count is within it. */
  method ValidateJson(t: Tree, depth: nat, counter: Counter) returns (ok: bool)
    requires Keyed(t)
    modifies counter
    ensures ok <==> Accepts(t, depth, old(counter.n))
    ensures ok ==> counter.n == old(counter.n) + Nodes(t)
    decreases t
  {
    counter.n := counter.n + 1;
    if counter.n > NODE_MAX || depth > DEPTH_MAX {
      return false;
    }
    match t
    case Empty => return true;
    case Flag(_) => return true;
    case Literal(s) => return TextFits(s, TEXT_MAX);
    case Number(n) => return -MAX_SAFE <= n <= MAX_SAFE;
    case Fraction => return false;
    case Array(items) =>
      if |items| > WIDTH_MAX {
        return false;
      }
      ok := ValidateItems(t, depth, counter);
      assert items[..|items|] == items;
    case Object(keys, items) =>
      if |items| > WIDTH_MAX {
        return false;
      }
      ok := ValidateItems(t, depth, counter);
      assert items[..|items|] == items && keys[..|keys|] == keys;
  }

  /** Objects have as many keys as values, all the way down. */
  ghost predicate Keyed(t: Tree) {
    && (t.Object? ==> |t.keys| == |t.items|)
    && (t.Object? || t.Array? ==> forall x :: x in t.items ==> Keyed(x))
  }

  ghost predicate KeysFit(t: Tree, n: nat) {
    t.Object? ==> forall k :: k in t.keys[..if n <= |t.keys| then n else |t.keys|] ==> TextFits(k, NAME_MAX)
  }

  /** The loop over items or fields. */
  method ValidateItems(t: Tree, depth: nat, counter: Counter) returns (ok: bool)
    requires Keyed(t) && (t.Array? || t.Object?)
    requires counter.n <= NODE_MAX
    modifies counter
    ensures ok <==> AcceptsFirst(t.items, |t.items|, depth + 1, old(counter.n)) && KeysFit(t, |t.items|)
    ensures ok ==> counter.n == old(counter.n) + NodesAll(t.items[..|t.items|])
    decreases t, 0
  {
    for i := 0 to |t.items|
      invariant AcceptsFirst(t.items, i, depth + 1, old(counter.n)) && KeysFit(t, i)
      invariant counter.n == old(counter.n) + NodesAll(t.items[..i])
    {
      NextItem(t.items, i, depth + 1, old(counter.n));
      if t.Object? {
        KeysStep(t, i);
        if !TextFits(t.keys[i], NAME_MAX) {
          LaterKeys(t, i + 1);
          return false;
        }
      }
      assert t.items[i] in t.items;
      var fits := ValidateJson(t.items[i], depth + 1, counter);
      if !fits {
        LaterItems(t.items, i + 1, depth + 1, old(counter.n));
        return false;
      }
    }
    ok := true;
  }

  lemma NextItem(ts: seq<Tree>, i: nat, depth: nat, counted: nat)
    requires i < |ts| && AcceptsFirst(ts, i, depth, counted)
    ensures NodesAll(ts[..i + 1]) == NodesAll(ts[..i]) + Nodes(ts[i])
    ensures AcceptsFirst(ts, i + 1, depth, counted) <==> Accepts(ts[i], depth, counted + NodesAll(ts[..i]))
  {
    assert ts[..i + 1][..i] == ts[..i];
    assert ts[..i + 1] == ts[..i] + [ts[i]];
  }

  lemma {:induction false} LaterItems(ts: seq<Tree>, i: nat, depth: nat, counted: nat)
    requires i <= |ts| && !AcceptsFirst(ts, i, depth, counted)
    ensures !AcceptsFirst(ts, |ts|, depth, counted)
    decreases |ts| - i
  {
    if i < |ts| {
      assert ts[..i + 1][..i] == ts[..i];
      assert ts[..i + 1] == ts[..i] + [ts[i]];
      LaterItems(ts, i + 1, depth, counted);
    }
  }

  lemma KeysStep(t: Tree, i: nat)
    requires Keyed(t) && t.Object? && i < |t.items| && KeysFit(t, i)
    ensures KeysFit(t, i + 1) <==> TextFits(t.keys[i], NAME_MAX)
  {
    assert t.keys[..i + 1] == t.keys[..i] + [t.keys[i]];
  }

  lemma LaterKeys(t: Tree, i: nat)
    requires Keyed(t) && t.Object? && i <= |t.items| && !KeysFit(t, i)
    ensures !KeysFit(t, |t.items|)
  {
    var k :| k in t.keys[..i] && !TextFits(k, NAME_MAX);
    assert k in t.keys[..|t.keys|];
  }

  // ----- Parameters -----

  datatype Kind = Text | Integer | Boolean | Enum(values: set<string>)

  datatype RawParameter = RawParameter(name: string, kind: Kind)

  type Parameters = map<string, Kind>

  predicate EnumFits(kind: Kind) {
    kind.Enum? ==> 1 <= |kind.values| <= PARAMETER_MAX && forall v :: v in kind.values ==> TextFits(v, NAME_MAX)
  }

  /** Enum values are stripped; `raw.values` are the listed ones, without repeats. */
  function BuiltKind(kind: Kind): Kind {
    if kind.Enum? then Enum(set v | v in kind.values :: Strip(v)) else kind
  }

  /** The parameters of `build_policy_template_v1`, by stripped name. */
  function BuildParameters(raw: seq<RawParameter>): Option<Parameters> {
    if raw == [] then Some(map[])
    else
      var front :- BuildParameters(raw[..|raw| - 1]);
      var r := raw[|raw| - 1];
      if TextFits(r.name, NAME_MAX) && EnumFits(r.kind) && Strip(r.name) !in front
      then Some(front[Strip(r.name) := BuiltKind(r.kind)]) else None
  }

  /** A name of at most 256 bytes, and for an enumeration between 1 and 128 such values. */
  predicate ParameterGiven(r: RawParameter) {
    && TextFits(r.name, 256)
    && (r.kind.Enum? ==> 1 <= |r.kind.values| <= 128 && forall v :: v in r.kind.values ==> TextFits(v, 256))
  }

  ghost predicate DeclaredAs(kind: Kind, built: Kind) {
    if kind.Enum? then built.Enum? && forall v :: v in built.values <==> exists w :: w in kind.values && Strip(w) == v
    else built == kind
  }

  ghost predicate DistinctNames(raw: seq<RawParameter>) {
    forall i, j :: 0 <= i < j < |raw| ==> Strip(raw[i].name) != Strip(raw[j].name)
  }

  /** Each parameter is declared under its trimmed name, and nothing else is. */
  ghost predicate Declares(raw: seq<RawParameter>, built: Parameters) {
    && (forall k :: k in built ==> exists r :: r in raw && Strip(r.name) == k)
    && forall r :: r in raw ==> Strip(r.name) in built && DeclaredAs(r.kind, built[Strip(r.name)])
  }

  lemma NamesStep(front: seq<RawParameter>, last: RawParameter)
    ensures DistinctNames(front + [last]) <==>
      DistinctNames(front) && forall r :: r in front ==> Strip(r.name) != Strip(last.name)
  {
    hide Strip;
    var raw := front + [last];
    assert raw[|front|] == last && forall i :: 0 <= i < |front| ==> raw[i] == front[i];
    if DistinctNames(raw) {
      forall i, j | 0 <= i < j < |front| ensures Strip(front[i].name) != Strip(front[j].name) {
        assert Strip(raw[i].name) != Strip(raw[j].name);
      }
      forall r | r in front ensures Strip(r.name) != Strip(last.name) {
        var i :| 0 <= i < |front| && front[i] == r;
        assert Strip(raw[i].name) != Strip(raw[|front|].name);
      }
    }
  }

  lemma DeclareStep(front: seq<RawParameter>, last: RawParameter, built: Parameters)
    requires Declares(front, built) && Strip(last.name) !in built
    ensures Declares(front + [last], built[Strip(last.name) := BuiltKind(last.kind)])
  {
    hide Strip;
    assert DeclaredAs(last.kind, BuiltKind(last.kind));
  }

  /** Parameters are accepted exactly when each is and no two trimmed names are equal; they are then
      declared under their trimmed names, with trimmed values. */
  lemma {:induction false} ParametersBuilt(raw: seq<RawParameter>)
    ensures BuildParameters(raw).Some? <==> (forall r :: r in raw ==> ParameterGiven(r)) && DistinctNames(raw)
    ensures BuildParameters(raw).Some? ==> Declares(raw, BuildParameters(raw).value)
  {
    hide Strip, TextFits, DeclaredAs, DistinctNames;
    if raw == [] {
      NoNames();
    } else {
      var front, last := raw[..|raw| - 1], raw[|raw| - 1];
      assert raw == front + [last];
      ParametersBuilt(front);
      NamesStep(front, last);
      GivenStep(front, last);
      if BuildParameters(front).Some? {
        NameTaken(front, Strip(last.name), BuildParameters(front).value);
      }
      if BuildParameters(raw).Some? {
        DeclareStep(front, last, BuildParameters(front).value);
      }
    }
  }

  lemma GivenStep(front: seq<RawParameter>, last: RawParameter)
    ensures (forall r :: r in front + [last] ==> ParameterGiven(r)) <==>
      (forall r :: r in front ==> ParameterGiven(r)) && ParameterGiven(last)
  {
    hide ParameterGiven;
    assert last in front + [last];
    assert forall r :: r in front ==> r in front + [last];
  }

  lemma NameTaken(raw: seq<RawParameter>, name: string, built: Parameters)
    requires Declares(raw, built)
    ensures name in built <==> exists r :: r in raw && Strip(r.name) == name
  {
    hide Strip, DeclaredAs;
  }

  lemma NoNames()
    ensures DistinctNames([])
  {
  }

  /** `_param` */
  function ParamValue(kind: Kind, value: Tree): Option<Tree> {
    if kind == Text && value.Literal? then if TextFits(value.s, TEXT_MAX) then Some(Literal(Strip(value.s))) else None
    else if kind == Integer && value.Number? && -MAX_SAFE <= value.n <= MAX_SAFE then Some(value)
    else if kind == Boolean && value.Flag? then Some(value)
    else if kind.Enum? && value.Literal? && value.s in kind.values then Some(value)
    else None
  }

  /** The supplied value of every declared parameter, and of no other. */
  function BindParameters(declared: Parameters, supplied: map<string, Tree>): Option<map<string, Tree>> {
    if supplied.Keys == declared.Keys && forall k :: k in declared ==> ParamValue(declared[k], supplied[k]).Some?
    then Some(map k | k in declared :: ParamValue(declared[k], supplied[k]).value)
    else None
  }

  /** The value bound to a parameter that was supplied as v: the text without its outer whitespace, or v
      itself. */
  ghost predicate BoundTo(kind: Kind, v: Tree, bound: Tree) {
    match kind
    case Text => v.Literal? && bound.Literal? && Trims(v.s, bound.s) && bound.s != ""
    case Integer => v.Number? && -0x1F_FFFF_FFFF_FFFF <= v.n <= 0x1F_FFFF_FFFF_FFFF && bound == v
    case Boolean => v.Flag? && bound == v
    case Enum(values) => v.Literal? && v.s in values && bound == v
  }

  ghost predicate Trims(s: string, r: string) {
    && (exists a, b :: s == a + r + b && AllIn(a, IsPythonSpace) && AllIn(b, IsPythonSpace))
    && (r != "" ==> !IsPythonSpace(r[0]) && !IsPythonSpace(r[|r| - 1]))
  }

  /** Exactly the declared parameters are supplied, each bound to the value supplied for it. */
  lemma BoundAsSupplied(declared: Parameters, supplied: map<string, Tree>)
    requires BindParameters(declared, supplied).Some?
    ensures var bound := BindParameters(declared, supplied).value;
      && bound.Keys == declared.Keys == supplied.Keys
      && forall k :: k in declared ==> BoundTo(declared[k], supplied[k], bound[k])
  {
    hide Strip, Utf8Length, AllIn;
    forall k | k in declared
      ensures BoundTo(declared[k], supplied[k], BindParameters(declared, supplied).value[k])
    {
      if declared[k] == Text {
        var before, after := StripMeaning(supplied[k].s);
      }
    }
  }

  // ----- Rendering -----

  const MARKER := "$obsvr_param"

  predicate IsPlaceholder(t: Tree) {
    t.Object? && t.keys == [MARKER] && |t.items| == 1
  }

  /** `_render`: None when a placeholder names no parameter. */
  function Render(t: Tree, params: map<string, Tree>): Option<Tree>
    decreases t, 1
  {
    if t.Array? then
      var items :- RenderAll(t.items, params);
      Some(Array(items))
    else if IsPlaceholder(t) then
      var name := t.items[0];
      if name.Literal? && name.s in params then Some(params[name.s]) else None
    else if t.Object? then
      var items :- RenderAll(t.items, params);
      Some(Object(t.keys, items))
    else Some(t)
  }

  function RenderAll(ts: seq<Tree>, params: map<string, Tree>): Option<seq<Tree>>
    decreases ts, 0
  {
    if ts == [] then Some([])
    else
      var front :- RenderAll(ts[..|ts| - 1], params);
      var last :- Render(ts[|ts| - 1], params);
      Some(front + [last])
  }

  ghost predicate AllDeclared(t: Tree, params: map<string, Tree>) {
    if IsPlaceholder(t) then t.items[0].Literal? && t.items[0].s in params
    else t.Array? || t.Object? ==> forall x :: x in t.items ==> AllDeclared(x, params)
  }

  ghost predicate NoPlaceholder(t: Tree) {
    !IsPlaceholder(t) && (t.Array? || t.Object? ==> forall x :: x in t.items ==> NoPlaceholder(x))
  }

  /** Values that parameters can take: single nodes that validate anywhere. */
  ghost predicate Leaf(t: Tree) {
    t.Flag? || (t.Number? && -MAX_SAFE <= t.n <= MAX_SAFE) || (t.Literal? && TextFits(t.s, TEXT_MAX))
  }

  ghost predicate LeafValues(params: map<string, Tree>) {
    forall k :: k in params ==> Leaf(params[k])
  }

  ghost predicate EnumsFit(declared: Parameters) {
    forall k, v :: k in declared && declared[k].Enum? && v in declared[k].values ==> TextFits(v, TEXT_MAX)
  }

  lemma {:induction false} EnumValuesFit(raw: seq<RawParameter>)
    requires BuildParameters(raw).Some?
    ensures EnumsFit(BuildParameters(raw).value)
  {
    hide Strip, Utf8Length;
    if raw != [] {
      EnumValuesFit(raw[..|raw| - 1]);
      var kind := raw[|raw| - 1].kind;
      forall v | kind.Enum? && v in BuiltKind(kind).values ensures TextFits(v, TEXT_MAX) {
        var w :| w in kind.values && v == Strip(w);
        StripIdempotent(w);
      }
    }
  }

  /** Every bound parameter is a leaf. */
  lemma BoundAreLeaves(raw: seq<RawParameter>, supplied: map<string, Tree>)
    requires BuildParameters(raw).Some? && BindParameters(BuildParameters(raw).value, supplied).Some?
    ensures LeafValues(BindParameters(BuildParameters(raw).value, supplied).value)
  {
    hide Strip, Utf8Length, BuildParameters;
    var declared := BuildParameters(raw).value;
    EnumValuesFit(raw);
    forall k | k in declared ensures Leaf(ParamValue(declared[k], supplied[k]).value) {
      if declared[k] == Text {
        FitsStripped(supplied[k].s, TEXT_MAX);
      }
    }
  }

  /** Rendering succeeds exactly when every placeholder is declared. The result keeps within the
      template's bounds and contains no placeholder, so rendering it again changes nothing. */
  lemma {:induction false} RenderComplete(t: Tree, params: map<string, Tree>, depth: nat)
    requires WellFormed(t, depth) && LeafValues(params)
    ensures Render(t, params).Some? <==> AllDeclared(t, params)
    ensures Render(t, params).Some? ==>
      var r := Render(t, params).value;
      && NoPlaceholder(r) && Nodes(r) <= Nodes(t) && Height(r) <= Height(t) && WellFormed(r, depth)
    decreases t, 1
  {
    hide TextFits;
    if !IsPlaceholder(t) && (t.Array? || t.Object?) {
      RenderAllComplete(t.items, params, depth + 1);
    }
  }

  lemma {:induction false} RenderAllComplete(ts: seq<Tree>, params: map<string, Tree>, depth: nat)
    requires LeafValues(params) && forall x :: x in ts ==> WellFormed(x, depth)
    ensures RenderAll(ts, params).Some? <==> forall x :: x in ts ==> AllDeclared(x, params)
    ensures RenderAll(ts, params).Some? ==>
      var rs := RenderAll(ts, params).value;
      && |rs| == |ts| && NodesAll(rs) <= NodesAll(ts) && HeightAll(rs) <= HeightAll(ts)
      && forall x :: x in rs ==> NoPlaceholder(x) && WellFormed(x, depth)
    decreases ts, 0
  {
    hide WellFormed, NoPlaceholder, AllDeclared, Render, Nodes, Height;
    if ts != [] {
      var front, last := ts[..|ts| - 1], ts[|ts| - 1];
      assert ts == front + [last];
      RenderAllComplete(front, params, depth);
      RenderComplete(last, params, depth);
      if RenderAll(ts, params).Some? {
        var rs := RenderAll(ts, params).value;
        assert rs[..|rs| - 1] == RenderAll(front, params).value && rs[|rs| - 1] == Render(last, params).value;
      }
    }
  }

  /** The tree that a list of item numbers leads to. */
  function Sub(t: Tree, path: seq<nat>): Option<Tree>
    decreases |path|
  {
    if path == [] then Some(t)
    else if (t.Array? || t.Object?) && path[0] < |t.items| then Sub(t.items[path[0]], path[1..])
    else None
  }

  /** One node within its bounds, whatever lies below it. */
  predicate NodeFits(t: Tree) {
    match t
    case Number(n) => -0x1F_FFFF_FFFF_FFFF <= n <= 0x1F_FFFF_FFFF_FFFF
    case Fraction => false
    case Literal(s) => TextFits(s, 2048)
    case Array(items) => |items| <= 256
    case Object(keys, items) => |items| <= 256 && |keys| == |items| && forall k :: k in keys ==> TextFits(k, 256)
    case _ => true
  }

  ghost predicate AllFit(t: Tree, depth: nat) {
    forall path, x :: Sub(t, path) == Some(x) ==> depth + |path| <= 16 && NodeFits(x)
  }

  lemma {:induction false} FitsBelow(t: Tree, depth: nat, path: seq<nat>)
    requires WellFormed(t, depth) && Sub(t, path).Some?
    ensures depth + |path| <= 16 && NodeFits(Sub(t, path).value)
    decreases |path|
  {
    hide TextFits;
    if path != [] {
      assert t.items[path[0]] in t.items;
      FitsBelow(t.items[path[0]], depth + 1, path[1..]);
    }
  }

  lemma FitsItem(t: Tree, depth: nat, i: nat)
    requires AllFit(t, depth) && (t.Array? || t.Object?) && i < |t.items|
    ensures AllFit(t.items[i], depth + 1)
  {
    hide NodeFits;
    forall path: seq<nat>, x | Sub(t.items[i], path) == Some(x) ensures depth + 1 + |path| <= 16 && NodeFits(x) {
      var longer: seq<nat> := [i] + path;
      assert longer[0] == i && longer[1..] == path;
      assert Sub(t, longer) == Some(x);
    }
  }

  lemma {:induction false} FitsTogether(t: Tree, depth: nat)
    requires AllFit(t, depth)
    ensures WellFormed(t, depth)
  {
    hide TextFits;
    var here: seq<nat> := [];
    assert Sub(t, here) == Some(t);
    assert depth <= 16 && NodeFits(t);
    if t.Array? || t.Object? {
      forall x | x in t.items ensures WellFormed(x, depth + 1) {
        var i :| 0 <= i < |t.items| && t.items[i] == x;
        FitsItem(t, depth, i);
        FitsTogether(x, depth + 1);
      }
    }
  }

  /** A value is valid exactly when it has at most 4096 nodes, none more than 16 levels down, and every
      one of them is within its own bounds. */
  lemma ValidExactly(t: Tree)
    ensures Valid(t) <==> Nodes(t) <= 4096 && AllFit(t, 0)
  {
    hide NodeFits, WellFormed;
    if WellFormed(t, 0) {
      forall path, x | Sub(t, path) == Some(x) ensures |path| <= 16 && NodeFits(x) {
        FitsBelow(t, 0, path);
      }
    }
    if AllFit(t, 0) {
      FitsTogether(t, 0);
    }
  }

  /** An object whose one key is the marker; its value names a parameter. */
  predicate NamesParameter(t: Tree) {
    t.Object? && t.keys == ["$obsvr_param"] && |t.items| == 1
  }

  /** The path does not lead into a placeholder. */
  ghost predicate Outside(t: Tree, path: seq<nat>) {
    forall n, x :: 0 <= n < |path| && Sub(t, path[..n]) == Some(x) ==> !NamesParameter(x)
  }

  /** What stands where x stood. */
  predicate Substituted(x: Tree, y: Tree, params: map<string, Tree>) {
    if NamesParameter(x) then x.items[0].Literal? && x.items[0].s in params && y == params[x.items[0].s]
    else if x.Array? then y.Array? && |y.items| == |x.items|
    else if x.Object? then y.Object? && y.keys == x.keys && |y.items| == |x.items|
    else y == x
  }

  lemma {:induction false} RenderAllAt(ts: seq<Tree>, params: map<string, Tree>, i: nat)
    requires i < |ts| && RenderAll(ts, params).Some?
    ensures |RenderAll(ts, params).value| == |ts| && Render(ts[i], params) == Some(RenderAll(ts, params).value[i])
    decreases |ts|
  {
    hide Render;
    if i < |ts| - 1 {
      RenderAllAt(ts[..|ts| - 1], params, i);
    } else if |ts| > 1 {
      RenderAllAt(ts[..|ts| - 1], params, 0);
    }
  }

  lemma OutsideBelow(t: Tree, path: seq<nat>)
    requires path != [] && Outside(t, path) && (t.Array? || t.Object?) && path[0] < |t.items|
    ensures !NamesParameter(t) && Outside(t.items[path[0]], path[1..])
  {
    assert path[..0] == [] && Sub(t, path[..0]) == Some(t);
    var below := t.items[path[0]];
    forall n, x | 0 <= n < |path[1..]| && Sub(below, path[1..][..n]) == Some(x) ensures !NamesParameter(x) {
      assert path[..n + 1][0] == path[0] && path[..n + 1][1..] == path[1..][..n];
      assert Sub(t, path[..n + 1]) == Some(x);
    }
  }

  /** Rendering puts the bound value where a placeholder stood, wherever it stood, and leaves every
      other node as it was. */
  lemma {:induction false} RenderedAt(t: Tree, params: map<string, Tree>, path: seq<nat>)
    requires Render(t, params).Some? && Sub(t, path).Some? && Outside(t, path)
    ensures Sub(Render(t, params).value, path).Some?
    ensures Substituted(Sub(t, path).value, Sub(Render(t, params).value, path).value, params)
    decreases |path|
  {
    if t.Array? || (t.Object? && !NamesParameter(t)) {
      if |t.items| > 0 {
        RenderAllAt(t.items, params, if path == [] then 0 else path[0]);
      }
    }
    if path != [] {
      OutsideBelow(t, path);
      RenderedAt(t.items[path[0]], params, path[1..]);
    }
  }

  /** A tree without placeholders renders to itself, whatever the parameters. */
  lemma {:induction false} RenderFixed(t: Tree, params: map<string, Tree>)
    requires NoPlaceholder(t)
    ensures Render(t, params) == Some(t)
    decreases t, 1
  {
    if t.Array? || t.Object? {
      RenderAllFixed(t.items, params);
    }
  }

  lemma {:induction false} RenderAllFixed(ts: seq<Tree>, params: map<string, Tree>)
    requires forall x :: x in ts ==> NoPlaceholder(x)
    ensures RenderAll(ts, params) == Some(ts)
    decreases ts, 0
  {
    if ts != [] {
      var front, last := ts[..|ts| - 1], ts[|ts| - 1];
      assert ts == front + [last];
      RenderAllFixed(front, params);
      RenderFixed(last, params);
    }
  }

  lemma {:induction false} RenderKeyed(t: Tree, params: map<string, Tree>)
    requires Keyed(t) && LeafValues(params) && Render(t, params).Some?
    ensures Keyed(Render(t, params).value)
    decreases t, 1
  {
    hide TextFits;
    if !IsPlaceholder(t) && (t.Array? || t.Object?) {
      RenderAllKeyed(t.items, params);
    }
  }

  lemma {:induction false} RenderAllKeyed(ts: seq<Tree>, params: map<string, Tree>)
    requires LeafValues(params) && (forall x :: x in ts ==> Keyed(x)) && RenderAll(ts, params).Some?
    ensures |RenderAll(ts, params).value| == |ts| && forall x :: x in RenderAll(ts, params).value ==> Keyed(x)
    decreases ts, 0
  {
    hide LeafValues, Keyed, Render;
    if ts != [] {
      var front, last := ts[..|ts| - 1], ts[|ts| - 1];
      assert ts == front + [last];
      RenderAllKeyed(front, params);
      RenderKeyed(last, params);
    }
  }

  /** `render_policy_template_v1`: validate, bind, render, validate again. The second validation
      never fails. */
  method RenderTemplate(raw: seq<RawParameter>, artifact: Tree, supplied: map<string, Tree>)
    returns (rendered: Option<Tree>)
    requires Keyed(artifact)
    ensures var declared := BuildParameters(raw);
      if |raw| > 128 || declared.None? || !Valid(artifact) || BindParameters(declared.value, supplied).None?
      then rendered.None?
      else rendered == Render(artifact, BindParameters(declared.value, supplied).value)
    ensures rendered.Some? ==> Valid(rendered.value) && NoPlaceholder(rendered.value)
  {
    hide TextFits;
    var declared := BuildParameters(raw);
    if |raw| > PARAMETER_MAX || declared.None? {
      return None;
    }
    var counter := new Counter();
    var ok := ValidateJson(artifact, 0, counter);
    if !ok {
      return None;
    }
    var bound := BindParameters(declared.value, supplied);
    if bound.None? {
      return None;
    }
    var r := Render(artifact, bound.value);
    if r.None? {
      return None;
    }
    BoundAreLeaves(raw, supplied);
    RenderComplete(artifact, bound.value, 0);
    RenderKeyed(artifact, bound.value);
    var again := new Counter();
    ok := ValidateJson(r.value, 0, again);
    assert ok;
    rendered := r;
  }
}
