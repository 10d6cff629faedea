// The applicability-rule engine of internal/web/reviews.go: evaluation, validation and the
// explanation that lists the conditions of a rule.
module Rules {
  import opened Common

  datatype Json = Null | Bool(b: bool) | Number(n: real) | Str(s: string) | List(items: seq<Json>) | Object(m: map<string, Json>)

  type Members = map<string, Json>

  datatype Float = NaN | Infinite(positive: bool) | Finite(r: real)

  /** The library calls the engine makes: fmt.Sprint, strings.ToLower, strings.EqualFold, strconv.ParseFloat. */
  datatype Library = Library(sprint: Json -> string, lower: string -> string, equalFold: (string, string) -> bool,
                             parseFloat: string -> Option<Float>)

  function Less(a: Float, b: Float): bool {
    match (a, b)
    case (NaN, _) => false
    case (_, NaN) => false
    case (Infinite(p), Infinite(q)) => !p && q
    case (Infinite(p), Finite(_)) => !p
    case (Finite(_), Infinite(q)) => q
    case (Finite(x), Finite(y)) => x < y
  }

  function AtMost(a: Float, b: Float): bool {
    Less(a, b) || (a == b && a != NaN)
  }

  function Text(m: Members, key: string): string {
    if key in m && m[key].Str? then m[key].s else ""
  }

  function Value(m: Members, key: string): Json {
    if key in m then m[key] else Null
  }

  predicate IsGroup(m: Members, key: string) {
    key in m && m[key].List?
  }

  predicate Contains(s: string, part: string) {
    exists i :: 0 <= i <= |s| && part <= s[i..]
  }

  const OPERATORS := {"", "eq", "=", "neq", "!=", "in", "contains", "gt", "gte", "lt", "lte", "exists"}

  // --------------------------------------------------------------- evaluation

  function EvalLeaf(lib: Library, m: Members, fields: Members): bool {
    var field, op := Text(m, "field"), Text(m, "operator");
    if lib.equalFold(op, "exists") then (field in fields) == (Value(m, "value") == Bool(true))
    else if field !in fields then false
    else
      var actual, expected := lib.sprint(fields[field]), Value(m, "value");
      var o := lib.lower(op);
      if o == "eq" || o == "=" || o == "" then actual == lib.sprint(expected)
      else if o == "neq" || o == "!=" then actual != lib.sprint(expected)
      else if o == "in" then expected.List? && exists i :: 0 <= i < |expected.items| && actual == lib.sprint(expected.items[i])
      else if o == "contains" then Contains(actual, lib.sprint(expected))
      else if o == "gt" || o == "gte" || o == "lt" || o == "lte" then
        var a, b := lib.parseFloat(actual), lib.parseFloat(lib.sprint(expected));
        if a.None? || b.None? then false
        else if o == "gt" then Less(b.value, a.value)
        else if o == "gte" then AtMost(b.value, a.value)
        else if o == "lt" then Less(a.value, b.value)
        else AtMost(a.value, b.value)
      else false
  }

  predicate EvalNode(lib: Library, node: Json, fields: Members) {
    if !node.Object? then true
    else
      var m := node.m;
      if IsGroup(m, "all") then forall i :: 0 <= i < |m["all"].items| ==> EvalNode(lib, m["all"].items[i], fields)
      else if IsGroup(m, "any") then exists i :: 0 <= i < |m["any"].items| && EvalNode(lib, m["any"].items[i], fields)
      else if "not" in m then !EvalNode(lib, m["not"], fields)
      else EvalLeaf(lib, m, fields)
  }

  // --------------------------------------------------------------- validation

  datatype RuleError = NotAnObject | EmptyGroup | NoField | UnknownField | UnknownOperator | InNeedsValues

  function FirstError(lib: Library, items: seq<Json>, known: set<string>): Option<RuleError>
    decreases items, 0
  {
    if items == [] then None
    else
      var e := ValidateRule(lib, items[0], known);
      if e.Some? then e else FirstError(lib, items[1..], known)
  }

  /** validateRule: the first thing in a rule that the engine could never act on. */
  function ValidateRule(lib: Library, node: Json, known: set<string>): Option<RuleError>
    decreases node, 1
  {
    if !node.Object? then Some(NotAnObject)
    else
      var m := node.m;
      if "all" in m then
        if !m["all"].List? || m["all"].items == [] then Some(EmptyGroup) else FirstError(lib, m["all"].items, known)
      else if "any" in m then
        if !m["any"].List? || m["any"].items == [] then Some(EmptyGroup) else FirstError(lib, m["any"].items, known)
      else if "not" in m then ValidateRule(lib, m["not"], known)
      else
        var field, op := Text(m, "field"), Text(m, "operator");
        if field == "" then Some(NoField)
        else if field !in known then Some(UnknownField)
        else if lib.lower(op) !in OPERATORS then Some(UnknownOperator)
        else if lib.equalFold(op, "in") && (!Value(m, "value").List? || Value(m, "value").items == []) then Some(InNeedsValues)
        else None
  }

  lemma {:induction false} GroupIsValid(lib: Library, items: seq<Json>, known: set<string>, i: nat)
    requires FirstError(lib, items, known).None? && i < |items|
    ensures ValidateRule(lib, items[i], known).None?
  {
    if i > 0 { GroupIsValid(lib, items[1..], known, i - 1); }
  }

  // -------------------------------------------------------------- explanation

  datatype Condition = Condition(field: string, operator: string, value: Json, actual: Json, matched: bool, negated: bool)

  /** One leaf of a rule, and whether an odd number of "not" stands above it. */
  datatype Literal = Literal(m: Members, negated: bool)

  const MAX_CONDITIONS := 40

  predicate Matched(lib: Library, l: Literal, fields: Members) {
    EvalLeaf(lib, l.m, fields) != l.negated
  }

  function Explained(lib: Library, l: Literal, fields: Members): Condition {
    var op := if Text(l.m, "operator") == "" then "eq" else Text(l.m, "operator");
    Condition(Text(l.m, "field"), lib.lower(op), Value(l.m, "value"), Value(fields, Text(l.m, "field")), Matched(lib, l, fields), l.negated)
  }

  function AllExplained(lib: Library, ls: seq<Literal>, fields: Members): (cs: seq<Condition>)
    ensures |cs| == |ls| && forall i :: 0 <= i < |ls| ==> cs[i] == Explained(lib, ls[i], fields)
  {
    seq(|ls|, i requires 0 <= i < |ls| => Explained(lib, ls[i], fields))
  }

  function LeavesOfAll(items: seq<Json>, negated: bool): seq<Literal>
    decreases items, 0
  {
    if items == [] then [] else Leaves(items[0], negated) + LeavesOfAll(items[1..], negated)
  }

  /** The leaves of a rule that name a field, in the order they are written. */
  function Leaves(node: Json, negated: bool): seq<Literal>
    decreases node, 1
  {
    if !node.Object? then []
    else
      var m := node.m;
      if IsGroup(m, "all") then LeavesOfAll(m["all"].items, negated)
      else if IsGroup(m, "any") then LeavesOfAll(m["any"].items, negated)
      else if "not" in m then Leaves(m["not"], !negated)
      else if Text(m, "field") == "" then []
      else [Literal(m, negated)]
  }

  function Capped(cs: seq<Condition>): seq<Condition> {
    if |cs| <= MAX_CONDITIONS then cs else cs[..MAX_CONDITIONS]
  }

  lemma CappedTwice(lib: Library, out: seq<Condition>, a: seq<Literal>, b: seq<Literal>, fields: Members)
    ensures Capped(Capped(out + AllExplained(lib, a, fields)) + AllExplained(lib, b, fields))
         == Capped(out + AllExplained(lib, a + b, fields))
  {
    assert out + AllExplained(lib, a + b, fields) == out + AllExplained(lib, a, fields) + AllExplained(lib, b, fields);
  }

  lemma {:induction false} LeavesOfPrefix(items: seq<Json>, negated: bool, n: nat)
    requires n < |items|
    ensures LeavesOfAll(items[..n + 1], negated) == LeavesOfAll(items[..n], negated) + Leaves(items[n], negated)
  {
    assert items[..n + 1][0] == items[0];
    if n > 0 {
      LeavesOfPrefix(items[1..], negated, n - 1);
      assert items[..n + 1][1..] == items[1..][..n] && items[..n][1..] == items[1..][..n - 1];
      assert items[..n][0] == items[0] && items[1..][n - 1] == items[n];
    } else {
      assert items[..1] == [items[0]] && items[..0] == [];
      assert LeavesOfAll([], negated) == [];
      assert [items[0]][1..] == [];
    }
  }

  /** collectConditions: appends the leaves of `node` to `out`, stopping at forty. */
  method CollectConditions(lib: Library, node: Json, fields: Members, negated: bool, out: seq<Condition>)
    returns (all: seq<Condition>)
    requires |out| <= MAX_CONDITIONS
    ensures all == Capped(out + AllExplained(lib, Leaves(node, negated), fields))
    decreases node, 1
  {
    all := out;
    assert out + AllExplained(lib, [], fields) == out;
    if !node.Object? || |out| >= MAX_CONDITIONS { return; }
    var m := node.m;
    if IsGroup(m, "all") {
      all := CollectGroup(lib, m["all"].items, fields, negated, out);
    } else if IsGroup(m, "any") {
      all := CollectGroup(lib, m["any"].items, fields, negated, out);
    } else if "not" in m {
      all := CollectConditions(lib, m["not"], fields, !negated, out);
    } else if Text(m, "field") != "" {
      all := out + [Explained(lib, Literal(m, negated), fields)];
      assert AllExplained(lib, [Literal(m, negated)], fields) == [Explained(lib, Literal(m, negated), fields)];
    }
  }

  method CollectGroup(lib: Library, items: seq<Json>, fields: Members, negated: bool, out: seq<Condition>)
    returns (all: seq<Condition>)
    requires |out| <= MAX_CONDITIONS
    ensures all == Capped(out + AllExplained(lib, LeavesOfAll(items, negated), fields))
    decreases items, 0
  {
    all := out;
    assert out + AllExplained(lib, [], fields) == out;
    for i := 0 to |items|
      invariant all == Capped(out + AllExplained(lib, LeavesOfAll(items[..i], negated), fields))
    {
      all := CollectConditions(lib, items[i], fields, negated, all);
      CappedTwice(lib, out, LeavesOfAll(items[..i], negated), Leaves(items[i], negated), fields);
      LeavesOfPrefix(items, negated, i);
    }
    assert items[..|items|] == items;
  }

  // ------------------------------------------------- pushing negation to the leaves

  datatype Normal = Const(value: bool) | Leaf(l: Literal) | AllOf(parts: seq<Normal>) | AnyOf(parts: seq<Normal>)

  function PushAll(items: seq<Json>, negated: bool): (parts: seq<Normal>)
    ensures |parts| == |items| && forall i :: 0 <= i < |items| ==> parts[i] == Push(items[i], negated)
    decreases items, 0
  {
    if items == [] then [] else [Push(items[0], negated)] + PushAll(items[1..], negated)
  }

  /** The rule (or its negation) with every "not" moved down to the leaves. */
  function Push(node: Json, negated: bool): Normal
    decreases node, 1
  {
    if !node.Object? then Const(!negated)
    else
      var m := node.m;
      if IsGroup(m, "all") then
        var parts := PushAll(m["all"].items, negated); if negated then AnyOf(parts) else AllOf(parts)
      else if IsGroup(m, "any") then
        var parts := PushAll(m["any"].items, negated); if negated then AllOf(parts) else AnyOf(parts)
      else if "not" in m then Push(m["not"], !negated)
      else Leaf(Literal(m, negated))
  }

  predicate EvalNormal(lib: Library, n: Normal, fields: Members) {
    match n
    case Const(value) => value
    case Leaf(l) => Matched(lib, l, fields)
    case AllOf(parts) => forall i :: 0 <= i < |parts| ==> EvalNormal(lib, parts[i], fields)
    case AnyOf(parts) => exists i :: 0 <= i < |parts| && EvalNormal(lib, parts[i], fields)
  }

  /** On every JSON value, well formed or not, moving negation to the leaves preserves the meaning. */
  lemma {:induction false} PushPreserves(lib: Library, node: Json, negated: bool, fields: Members)
    ensures EvalNormal(lib, Push(node, negated), fields) == (EvalNode(lib, node, fields) != negated)
    decreases node
  {
    if node.Object? {
      var m := node.m;
      if IsGroup(m, "all") {
        forall i | 0 <= i < |m["all"].items|
          ensures EvalNormal(lib, Push(m["all"].items[i], negated), fields) == (EvalNode(lib, m["all"].items[i], fields) != negated)
        {
          PushPreserves(lib, m["all"].items[i], negated, fields);
        }
      } else if IsGroup(m, "any") {
        forall i | 0 <= i < |m["any"].items|
          ensures EvalNormal(lib, Push(m["any"].items[i], negated), fields) == (EvalNode(lib, m["any"].items[i], fields) != negated)
        {
          PushPreserves(lib, m["any"].items[i], negated, fields);
        }
      } else if "not" in m {
        PushPreserves(lib, m["not"], !negated, fields);
      }
    }
  }

  function LeavesOfNormals(parts: seq<Normal>): seq<Literal>
    decreases parts, 0
  {
    if parts == [] then [] else LeavesOfNormal(parts[0]) + LeavesOfNormals(parts[1..])
  }

  function LeavesOfNormal(n: Normal): seq<Literal>
    decreases n, 1
  {
    match n
    case Const(_) => []
    case Leaf(l) => [l]
    case AllOf(parts) => LeavesOfNormals(parts)
    case AnyOf(parts) => LeavesOfNormals(parts)
  }

  /** A rule the validator accepts is explained by exactly the leaves of its negation normal form. */
  lemma {:induction false} LeavesAreNormal(lib: Library, node: Json, negated: bool, known: set<string>)
    requires ValidateRule(lib, node, known).None?
    ensures Leaves(node, negated) == LeavesOfNormal(Push(node, negated))
    decreases node, 1
  {
    var m := node.m;
    if IsGroup(m, "all") {
      GroupLeavesAreNormal(lib, m["all"].items, negated, known);
    } else if IsGroup(m, "any") {
      GroupLeavesAreNormal(lib, m["any"].items, negated, known);
    } else if "not" in m {
      LeavesAreNormal(lib, m["not"], !negated, known);
    }
  }

  lemma {:induction false} GroupLeavesAreNormal(lib: Library, items: seq<Json>, negated: bool, known: set<string>)
    requires FirstError(lib, items, known).None?
    ensures LeavesOfAll(items, negated) == LeavesOfNormals(PushAll(items, negated))
    decreases items, 0
  {
    if items != [] {
      LeavesAreNormal(lib, items[0], negated, known);
      GroupLeavesAreNormal(lib, items[1..], negated, known);
      assert PushAll(items, negated)[1..] == PushAll(items[1..], negated);
    }
  }

  /** A child of a group whose outcome is that of the whole group. */
  lemma AgreeingChild(lib: Library, m: Members, known: set<string>, fields: Members) returns (items: seq<Json>, i: nat)
    requires ValidateRule(lib, Object(m), known).None? && ("all" in m || "any" in m)
    ensures items == (if "all" in m then m["all"] else m["any"]).items && FirstError(lib, items, known).None?
    ensures i < |items| && EvalNode(lib, items[i], fields) == EvalNode(lib, Object(m), fields)
    ensures forall negated :: Leaves(Object(m), negated) == LeavesOfAll(items, negated)
  {
    items := if "all" in m then m["all"].items else m["any"].items;
    if forall k :: 0 <= k < |items| ==> EvalNode(lib, items[k], fields) == EvalNode(lib, items[0], fields) {
      i := 0;
    } else {
      i :| i < |items| && EvalNode(lib, items[i], fields) == EvalNode(lib, Object(m), fields);
    }
  }

  /** Some leaf agrees with the outcome: true rules have a matched leaf, false rules an unmatched one. */
  lemma {:induction false} LeafAgrees(lib: Library, node: Json, negated: bool, known: set<string>, fields: Members) returns (k: nat)
    requires ValidateRule(lib, node, known).None?
    ensures k < |Leaves(node, negated)|
    ensures Matched(lib, Leaves(node, negated)[k], fields) == (EvalNode(lib, node, fields) != negated)
    decreases node
  {
    var m := node.m;
    if "all" in m || "any" in m {
      var items, i := AgreeingChild(lib, m, known, fields);
      GroupIsValid(lib, items, known, i);
      var j := LeafAgrees(lib, items[i], negated, known, fields);
      var before, after := LeavesAround(items, negated, i);
      k := |before| + j;
      assert (before + Leaves(items[i], negated) + after)[k] == Leaves(items[i], negated)[j];
    } else if "not" in m {
      k := LeafAgrees(lib, m["not"], !negated, known, fields);
    } else {
      k := 0;
    }
  }

  lemma {:induction false} LeavesAround(items: seq<Json>, negated: bool, i: nat) returns (before: seq<Literal>, after: seq<Literal>)
    requires i < |items|
    ensures LeavesOfAll(items, negated) == before + Leaves(items[i], negated) + after
  {
    if i == 0 {
      before, after := [], LeavesOfAll(items[1..], negated);
    } else {
      before, after := LeavesAround(items[1..], negated, i - 1);
      before := Leaves(items[0], negated) + before;
    }
  }

  /** explainRule applied to a parsed rule. */
  method ExplainRule(lib: Library, node: Json, fields: Members) returns (out: seq<Condition>)
    ensures out == Capped(AllExplained(lib, Leaves(node, false), fields))
  {
    out := CollectConditions(lib, node, fields, false, []);
    assert [] + AllExplained(lib, Leaves(node, false), fields) == AllExplained(lib, Leaves(node, false), fields);
  }

  /** The explanation of an accepted rule with at most forty conditions is complete, and it always shows
      a condition that agrees with the outcome. */
  lemma ExplanationIsFaithful(lib: Library, node: Json, known: set<string>, fields: Members)
    requires ValidateRule(lib, node, known).None? && |Leaves(node, false)| <= 40
    ensures var listed := Capped(AllExplained(lib, Leaves(node, false), fields));
            && listed == AllExplained(lib, LeavesOfNormal(Push(node, false)), fields)
            && exists k :: 0 <= k < |listed| && listed[k].matched == EvalNode(lib, node, fields)
  {
    LeavesAreNormal(lib, node, false, known);
    var k := LeafAgrees(lib, node, false, known, fields);
    assert AllExplained(lib, Leaves(node, false), fields)[k].matched == EvalNode(lib, node, fields);
  }

  lemma ListedAllMatch(lib: Library, ls: seq<Literal>, l: Literal, fields: Members)
    requires |ls| == MAX_CONDITIONS + 1 && Matched(lib, l, fields) && forall i :: 0 <= i < MAX_CONDITIONS ==> ls[i] == l
    ensures forall c :: c in Capped(AllExplained(lib, ls, fields)) ==> c.matched
  {
  }

  predicate IsLeaf(lib: Library, m: Members, known: set<string>) {
    "all" !in m && "any" !in m && "not" !in m && Text(m, "field") != "" && ValidateRule(lib, Object(m), known).None?
  }

  /** Forty copies of a leaf that holds, and one more that does not. */
  lemma LongRule(lib: Library, yes: Members, no: Members, fields: Members) returns (node: Json)
    requires IsLeaf(lib, yes, {"f"}) && IsLeaf(lib, no, {"f"}) && EvalLeaf(lib, yes, fields) && !EvalLeaf(lib, no, fields)
    ensures TooLong(lib, node, fields)
  {
    var items := seq(MAX_CONDITIONS, _ => Object(yes)) + [Object(no)];
    node := Object(map["all" := List(items)]);
    ManyLeaves(lib, items, yes, no, {"f"});
    assert Leaves(node, false) == LeavesOfAll(items, false);
    ListedAllMatch(lib, LeavesOfAll(items, false), Literal(yes, false), fields);
    assert !EvalNode(lib, items[MAX_CONDITIONS], fields);
  }

  /** The limit matters: an accepted rule of 41 conditions can fail while every listed condition matches. */
  lemma CapHidesTheFailure(lib: Library)
    requires lib.equalFold("exists", "exists") && !lib.equalFold("exists", "in") && lib.lower("exists") == "exists"
    ensures exists node, fields :: TooLong(lib, node, fields)
  {
    var yes := map["field" := Str("f"), "operator" := Str("exists"), "value" := Bool(true)];
    var no := map["field" := Str("f"), "operator" := Str("exists"), "value" := Bool(false)];
    assert Text(yes, "field") == "f" && Text(yes, "operator") == "exists";
    assert Text(no, "field") == "f" && Text(no, "operator") == "exists";
    var node := LongRule(lib, yes, no, map["f" := Null]);
  }

  ghost predicate TooLong(lib: Library, node: Json, fields: Members) {
    && ValidateRule(lib, node, {"f"}).None? && |Leaves(node, false)| == 41 && !EvalNode(lib, node, fields)
    && forall c :: c in Capped(AllExplained(lib, Leaves(node, false), fields)) ==> c.matched
  }

  lemma {:induction false} ManyLeaves(lib: Library, items: seq<Json>, yes: Members, no: Members, known: set<string>)
    requires items != [] && items[|items| - 1] == Object(no)
    requires forall i :: 0 <= i < |items| - 1 ==> items[i] == Object(yes)
    requires IsLeaf(lib, yes, known) && IsLeaf(lib, no, known)
    ensures FirstError(lib, items, known).None? && |LeavesOfAll(items, false)| == |items|
    ensures forall i :: 0 <= i < |items| - 1 ==> LeavesOfAll(items, false)[i] == Literal(yes, false)
  {
    if |items| > 1 { ManyLeaves(lib, items[1..], yes, no, known); }
  }
}
