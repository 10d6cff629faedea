// What the operators and groups of an applicability rule mean to whoever writes one: laws of evalLeaf,
// evalNode, validateRule and explainRule of internal/web/reviews.go that relate rules to each other and to the values
// they compare.
module RuleLaws {
  import opened Common
  import opened Rules

  /** A condition as it is written. */
  function Cond(field: string, op: string, value: Json): Members {
    map["field" := Str(field), "operator" := Str(op), "value" := value]
  }

  /** Does the condition hold of a service? */
  predicate Holds(lib: Library, field: string, op: string, value: Json, fields: Members) {
    EvalLeaf(lib, Cond(field, op, value), fields)
  }

  lemma Reads(field: string, op: string, value: Json)
    ensures var m := Cond(field, op, value); Text(m, "field") == field && Text(m, "operator") == op && Value(m, "value") == value
  {
    assert "field" != "operator" && "field" != "value" && "operator" != "value" by {
      assert |"field"| == 5 && |"operator"| == 8 && "field"[0] != "value"[0];
    }
  }

  /** The library does to the engine's operators what it says: they are in lower case, and "exists" and "in"
      fold onto themselves only. */
  ghost predicate Usual(lib: Library) {
    && (forall op :: op in OPERATORS ==> lib.lower(op) == op)
    && (forall op, other :: op in OPERATORS && other in OPERATORS ==> (lib.equalFold(op, other) <==> op == other))
  }

  const COMPARING := {"", "eq", "=", "neq", "!=", "in", "contains", "gt", "gte", "lt", "lte"}

  lemma NotExists(lib: Library, op: string)
    requires Usual(lib) && op in COMPARING
    ensures op in OPERATORS && !lib.equalFold(op, "exists") && lib.lower(op) == op
  {
    assert |"exists"| == 6 && |"contains"| == 8 && |""| == 0 && |"eq"| == |"in"| == |"!="| == |"gt"| == |"lt"| == 2
           && |"="| == 1 && |"neq"| == |"gte"| == |"lte"| == 3;
  }

  // -------------------------------------------------------------------- presence

  /** `exists` asks for presence, or with any value but true for absence, and looks at nothing else. */
  lemma ExistsMeansPresent(lib: Library, field: string, value: Json, fields: Members)
    requires Usual(lib)
    ensures Holds(lib, field, "exists", value, fields) <==> (if value == Bool(true) then field in fields else field !in fields)
  {
    Reads(field, "exists", value);
  }

  /** No comparison holds of a field that is not there, not even "is not equal". */
  lemma MissingIsFalse(lib: Library, field: string, op: string, value: Json, fields: Members)
    requires Usual(lib) && op in COMPARING && field !in fields
    ensures !Holds(lib, field, op, value, fields)
  {
    Reads(field, op, value);
    NotExists(lib, op);
  }

  // -------------------------------------------------------------------- equality

  /** A condition under two spellings of its operator. */
  lemma Spellings(lib: Library, field: string, value: Json, fields: Members)
    requires Usual(lib)
    ensures Holds(lib, field, "=", value, fields) == Holds(lib, field, "eq", value, fields) == Holds(lib, field, "", value, fields)
    ensures Holds(lib, field, "!=", value, fields) == Holds(lib, field, "neq", value, fields)
  {
    Reads(field, "=", value);
    Reads(field, "eq", value);
    Reads(field, "", value);
    Reads(field, "!=", value);
    Reads(field, "neq", value);
    NotExists(lib, "=");
    NotExists(lib, "eq");
    NotExists(lib, "");
    NotExists(lib, "!=");
    NotExists(lib, "neq");
  }

  /** Every value equals itself, and values that are printed differently are not equal. */
  lemma EqualToItself(lib: Library, field: string, value: Json, fields: Members)
    requires Usual(lib) && field in fields
    ensures fields[field] == value ==> Holds(lib, field, "eq", value, fields)
    ensures lib.sprint(fields[field]) != lib.sprint(value) ==> !Holds(lib, field, "eq", value, fields)
  {
    Reads(field, "eq", value);
    NotExists(lib, "eq");
  }

  /** Of a field that is there, "is not equal" is the contrary of "is equal". */
  lemma NotEqualIsContrary(lib: Library, field: string, value: Json, fields: Members)
    requires Usual(lib) && field in fields
    ensures Holds(lib, field, "neq", value, fields) <==> !Holds(lib, field, "eq", value, fields)
  {
    Reads(field, "neq", value);
    Reads(field, "eq", value);
    NotExists(lib, "neq");
    NotExists(lib, "eq");
  }

  /** Being in a list is being equal to one of its values; what is no list has nothing in it. */
  lemma InIsEqualToOne(lib: Library, field: string, value: Json, fields: Members)
    requires Usual(lib) && field in fields
    ensures Holds(lib, field, "in", value, fields) <==> value.List? && exists v :: v in value.items && Holds(lib, field, "eq", v, fields)
  {
    Reads(field, "in", value);
    NotExists(lib, "in");
    NotExists(lib, "eq");
    forall v ensures Holds(lib, field, "eq", v, fields) <==> lib.sprint(fields[field]) == lib.sprint(v) { Reads(field, "eq", v); }
    if value.List? && exists v :: v in value.items && Holds(lib, field, "eq", v, fields) {
      var v :| v in value.items && Holds(lib, field, "eq", v, fields);
      var i :| 0 <= i < |value.items| && value.items[i] == v;
      assert lib.sprint(fields[field]) == lib.sprint(value.items[i]);
    }
    if Holds(lib, field, "in", value, fields) {
      var i :| 0 <= i < |value.items| && lib.sprint(fields[field]) == lib.sprint(value.items[i]);
      assert value.items[i] in value.items && Holds(lib, field, "eq", value.items[i], fields);
    }
  }

  /** A text contains exactly what it can be cut around. */
  lemma ContainsMeansPart(lib: Library, field: string, value: Json, fields: Members)
    requires Usual(lib) && field in fields
    ensures Holds(lib, field, "contains", value, fields) <==>
              exists before, after :: lib.sprint(fields[field]) == before + lib.sprint(value) + after
  {
    Reads(field, "contains", value);
    NotExists(lib, "contains");
    CutAround(lib.sprint(fields[field]), lib.sprint(value));
  }

  lemma CutAround(text: string, part: string)
    ensures Contains(text, part) <==> exists before, after :: text == before + part + after
  {
    if Contains(text, part) {
      var i :| 0 <= i <= |text| && part <= text[i..];
      assert text == text[..i] + part + text[i + |part|..];
    }
    if exists before, after :: text == before + part + after {
      var before, after :| text == before + part + after;
      assert text[|before|..] == part + after;
    }
  }

  // -------------------------------------------------------------------- order

  /** Numbers are printed so that they can be read back. */
  ghost predicate ReadsNumbers(lib: Library) {
    forall x :: lib.parseFloat(lib.sprint(Number(x))) == Some(Finite(x))
  }

  /** On numbers the four comparisons are those of arithmetic, the field on the left. */
  lemma OrderOfNumbers(lib: Library, field: string, a: real, b: real, fields: Members)
    requires Usual(lib) && ReadsNumbers(lib) && field in fields && fields[field] == Number(a)
    ensures Holds(lib, field, "gt", Number(b), fields) <==> a > b
    ensures Holds(lib, field, "gte", Number(b), fields) <==> a >= b
    ensures Holds(lib, field, "lt", Number(b), fields) <==> a < b
    ensures Holds(lib, field, "lte", Number(b), fields) <==> a <= b
  {
    Reads(field, "gt", Number(b));
    Reads(field, "gte", Number(b));
    Reads(field, "lt", Number(b));
    Reads(field, "lte", Number(b));
    NotExists(lib, "gt");
    NotExists(lib, "gte");
    NotExists(lib, "lt");
    NotExists(lib, "lte");
  }

  ghost predicate Readable(lib: Library, value: Json) {
    lib.parseFloat(lib.sprint(value)).Some? && lib.parseFloat(lib.sprint(value)) != Some(NaN)
  }

  const ORDERING := {"gt", "gte", "lt", "lte"}

  lemma Ordering(lib: Library, field: string, op: string, value: Json, fields: Members)
    requires Usual(lib) && op in ORDERING
    ensures lib.lower(op) == op && Holds(lib, field, op, value, fields) ==> field in fields && Readable(lib, fields[field]) && Readable(lib, value)
  {
    Reads(field, op, value);
    NotExists(lib, op);
    assert |op| == 2 || |op| == 3;
    assert op != "" && op != "eq" && op != "=" && op != "neq" && op != "!=" && op != "in" && op != "contains" by {
      assert op[0] == 'g' || op[0] == 'l';
    }
  }

  /** Of any values, infinite ones too: exchanging field and value exchanges "greater" and "less", "at least"
      is "not less" where both sides are numbers, and nothing is compared with what is no number. */
  lemma OrderOfAnything(lib: Library, field: string, a: Json, b: Json)
    requires Usual(lib)
    ensures Holds(lib, field, "gt", b, map[field := a]) <==> Holds(lib, field, "lt", a, map[field := b])
    ensures Holds(lib, field, "gte", b, map[field := a]) <==> Holds(lib, field, "lte", a, map[field := b])
    ensures Readable(lib, a) && Readable(lib, b) ==> (Holds(lib, field, "gte", b, map[field := a]) <==> !Holds(lib, field, "lt", b, map[field := a]))
    ensures forall op :: op in ORDERING && Holds(lib, field, op, b, map[field := a]) ==> Readable(lib, a) && Readable(lib, b)
  {
    Reads(field, "gt", b);
    Reads(field, "lt", a);
    Reads(field, "gte", b);
    Reads(field, "lte", a);
    Reads(field, "lt", b);
    NotExists(lib, "gt");
    NotExists(lib, "gte");
    NotExists(lib, "lt");
    NotExists(lib, "lte");
    forall op | op in ORDERING && Holds(lib, field, op, b, map[field := a]) ensures Readable(lib, a) && Readable(lib, b) {
      Ordering(lib, field, op, b, map[field := a]);
    }
  }

  /** Upper and lower case of an operator make no difference, nor does anything in the condition but its
      field, operator and value. */
  lemma CaseMakesNoDifference(lib: Library, m: Members, n: Members, fields: Members)
    requires Text(m, "field") == Text(n, "field") && Value(m, "value") == Value(n, "value")
    requires lib.lower(Text(m, "operator")) == lib.lower(Text(n, "operator"))
    requires lib.equalFold(Text(m, "operator"), "exists") == lib.equalFold(Text(n, "operator"), "exists")
    ensures EvalLeaf(lib, m, fields) == EvalLeaf(lib, n, fields)
  {
  }

  // -------------------------------------------------------------------- groups

  function All(items: seq<Json>): Json { Object(map["all" := List(items)]) }

  function Any(items: seq<Json>): Json { Object(map["any" := List(items)]) }

  function Not(node: Json): Json { Object(map["not" := node]) }

  function Negated(items: seq<Json>): (ns: seq<Json>)
    ensures |ns| == |items| && forall i :: 0 <= i < |items| ==> ns[i] == Not(items[i])
  {
    seq(|items|, i requires 0 <= i < |items| => Not(items[i]))
  }

  lemma Groups(items: seq<Json>)
    ensures IsGroup(All(items).m, "all") && !IsGroup(Any(items).m, "all") && IsGroup(Any(items).m, "any")
  {
    assert "all"[1] != "any"[1];
  }

  lemma NotIsNoGroup(node: Json)
    ensures !IsGroup(Not(node).m, "all") && !IsGroup(Not(node).m, "any") && "not" in Not(node).m
  {
    assert "all"[0] != "not"[0] && "any"[0] != "not"[0];
  }

  /** A group of one is its member; the empty "all" holds, the empty "any" does not; one more member can only
      break an "all" and only make an "any". */
  lemma GroupsGrow(lib: Library, items: seq<Json>, node: Json, fields: Members)
    ensures EvalNode(lib, All([]), fields) && !EvalNode(lib, Any([]), fields)
    ensures EvalNode(lib, All(items + [node]), fields) <==> EvalNode(lib, All(items), fields) && EvalNode(lib, node, fields)
    ensures EvalNode(lib, Any(items + [node]), fields) <==> EvalNode(lib, Any(items), fields) || EvalNode(lib, node, fields)
    ensures EvalNode(lib, Not(node), fields) <==> !EvalNode(lib, node, fields)
  {
    Groups([]);
    Groups(items);
    Groups(items + [node]);
    NotIsNoGroup(node);
    var more := items + [node];
    assert more[|items|] == node && forall i :: 0 <= i < |items| ==> more[i] == items[i];
  }

  /** The laws of De Morgan. */
  lemma DeMorgan(lib: Library, items: seq<Json>, fields: Members)
    ensures EvalNode(lib, Not(All(items)), fields) <==> EvalNode(lib, Any(Negated(items)), fields)
    ensures EvalNode(lib, Not(Any(items)), fields) <==> EvalNode(lib, All(Negated(items)), fields)
  {
    NotIsNoGroup(All(items));
    NotIsNoGroup(Any(items));
    Groups(items);
    Groups(Negated(items));
    forall i | 0 <= i < |items| ensures EvalNode(lib, Negated(items)[i], fields) <==> !EvalNode(lib, items[i], fields) {
      NotIsNoGroup(items[i]);
    }
  }

  // ----------------------------------------------------------------- validation

  /** A rule the engine can act on: no empty group, no unknown field or operator, no "in" without values. */
  predicate WellFormed(lib: Library, node: Json, known: set<string>) {
    node.Object? &&
    var m := node.m;
    if "all" in m then m["all"].List? && m["all"].items != [] && forall i :: 0 <= i < |m["all"].items| ==> WellFormed(lib, m["all"].items[i], known)
    else if "any" in m then m["any"].List? && m["any"].items != [] && forall i :: 0 <= i < |m["any"].items| ==> WellFormed(lib, m["any"].items[i], known)
    else if "not" in m then WellFormed(lib, m["not"], known)
    else
      && Text(m, "field") != "" && Text(m, "field") in known && lib.lower(Text(m, "operator")) in OPERATORS
      && (lib.equalFold(Text(m, "operator"), "in") ==> Value(m, "value").List? && Value(m, "value").items != [])
  }

  /** The validator accepts exactly those. */
  lemma {:induction false} AcceptedIsWellFormed(lib: Library, node: Json, known: set<string>)
    ensures ValidateRule(lib, node, known).None? <==> WellFormed(lib, node, known)
    decreases node, 1
  {
    if node.Object? {
      var m := node.m;
      if "all" in m {
        if m["all"].List? { AllAccepted(lib, m["all"].items, known); }
      } else if "any" in m {
        if m["any"].List? { AllAccepted(lib, m["any"].items, known); }
      } else if "not" in m {
        AcceptedIsWellFormed(lib, m["not"], known);
      }
    }
  }

  lemma {:induction false} AllAccepted(lib: Library, items: seq<Json>, known: set<string>)
    ensures FirstError(lib, items, known).None? <==> forall i :: 0 <= i < |items| ==> WellFormed(lib, items[i], known)
    decreases items, 0
  {
    if items != [] {
      AcceptedIsWellFormed(lib, items[0], known);
      AllAccepted(lib, items[1..], known);
      forall i | 0 < i < |items| ensures items[i] == items[1..][i - 1] {
      }
    }
  }

  // ---------------------------------------------------------------- explanation

  /** What a listed condition says is enough to judge it again: its own field, operator and value decide as
      the condition did, and the value it shows is the field's. */
  lemma ConditionSpeaksForItself(lib: Library, l: Literal, fields: Members)
    requires Usual(lib) && Text(l.m, "operator") in OPERATORS
    ensures var c := Explained(lib, l, fields);
            && c.matched == (Holds(lib, c.field, c.operator, c.value, fields) != c.negated) && c.negated == l.negated
            && c.actual == (if c.field in fields then fields[c.field] else Null)
  {
    var c, op := Explained(lib, l, fields), Text(l.m, "operator");
    Reads(c.field, c.operator, c.value);
    if op == "" {
      NotExists(lib, "");
      NotExists(lib, "eq");
    }
  }
}
