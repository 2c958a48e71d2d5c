/**
 The filter compiler of indexing/qdrant.py against the reference evaluator beside it. `must` reads as
 and, `should` as or, a range as an exact comparison of numbers or instants; `float()` of an integer is
 written out, since it rounds.
 */
module QdrantFilter {
  import opened Prelude

  // ---- float() of an integer ------------------------------------------------------------------------------------

  function Pow2(e: nat): (r: nat)
    ensures r > 0
  {
    if e == 0 then 1 else 2 * Pow2(e - 1)
  }

  const TWO_53 := 0x20_0000_0000_0000
  const TWO_63 := 0x8000_0000_0000_0000

  /** How many low bits a 53-bit significand cannot hold. */
  function Excess(n: nat): nat {
    if n < TWO_53 then 0 else 1 + Excess(n / 2)
  }

  /** The nearest multiple of `unit`, ties to the even one. */
  function RoundTo(n: nat, unit: nat): nat
    requires unit > 0
  {
    var q, rest := n / unit, n % unit;
    if 2 * rest > unit || (2 * rest == unit && q % 2 == 1) then q * unit + unit else q * unit
  }

  lemma RoundsToNearest(n: nat, unit: nat)
    requires unit > 0
    ensures 2 * RoundTo(n, unit) <= 2 * n + unit && 2 * n <= 2 * RoundTo(n, unit) + unit
    ensures RoundTo(n, unit) <= (n / unit + 1) * unit
  {
    var q := n / unit;
    assert n == q * unit + n % unit;
    assert (q + 1) * unit == q * unit + unit;
  }

  function Rounded(n: nat): nat { RoundTo(n, Pow2(Excess(n))) }

  /** The double nearest to an integer; it is an integer too. */
  function ToDouble(n: int): int { if n < 0 then -(Rounded(-n) as int) else Rounded(n) as int }

  /** `float(n)` does not raise OverflowError: 53 bits and at most 971 more stay below 2 to the power of 1024. */
  predicate Finite(n: int) { Excess(Rounded(if n < 0 then -n else n)) <= 971 }

  lemma SmallIsExact(n: int)
    requires -TWO_53 < n < TWO_53
    ensures ToDouble(n) == n
  {}

  lemma {:induction false} PowGrows(a: nat, b: nat)
    requires a <= b
    ensures Pow2(a) <= Pow2(b)
    decreases b
  {
    if a < b {
      PowGrows(a, b - 1);
    }
  }

  lemma {:induction false} NextMultiple(a: nat, b: nat, u: nat)
    requires a < b
    ensures a * u + u <= b * u
    decreases b
  {
    if a + 1 < b {
      NextMultiple(a, b - 1, u);
    }
    assert b * u == (b - 1) * u + u;
  }

  lemma DivisionIsUnique(n: nat, u: nat, q: nat, r: nat)
    requires u > 0 && n == q * u + r && r < u
    ensures n / u == q
  {
    var p, s := n / u, n % u;
    assert n == p * u + s;
    if p > q {
      NextMultiple(q, p, u);
      assert false;
    }
    if p < q {
      NextMultiple(p, q, u);
      assert false;
    }
  }

  lemma HalfFirst(n: nat, u: nat)
    requires u > 0
    ensures n / (2 * u) == n / 2 / u
  {
    var h := n / 2;
    var q, r := h / u, h % u;
    assert h == q * u + r;
    assert n == 2 * (q * u) + (2 * r + n % 2);
    assert q * (2 * u) == 2 * (q * u);
    DivisionIsUnique(n, 2 * u, q, 2 * r + n % 2);
  }

  /** The kept bits fit a 53-bit significand. */
  lemma {:induction false} QuotientFits(n: nat)
    ensures n / Pow2(Excess(n)) < TWO_53
  {
    if n >= TWO_53 {
      QuotientFits(n / 2);
      HalfFirst(n, Pow2(Excess(n / 2)));
    }
  }

  lemma {:induction false} ExcessBound(n: nat, k: nat)
    requires n < TWO_53 * Pow2(k)
    ensures Excess(n) <= k
  {
    if n >= TWO_53 && k > 0 {
      assert TWO_53 * Pow2(k) == 2 * (TWO_53 * Pow2(k - 1));
      ExcessBound(n / 2, k - 1);
    }
  }

  lemma TimesLeq(a: nat, b: nat, x: nat, y: nat)
    requires a <= b && x <= y
    ensures a * x <= b * y
  {
    if a < b {
      NextMultiple(a, b, x);
    }
    if x < y {
      NextMultiple(x, y, b);
    }
    assert b * x == x * b && b * y == y * b;
  }

  lemma RoundedBound(n: nat, k: nat)
    requires n < TWO_53 * Pow2(k)
    ensures Rounded(n) <= TWO_53 * Pow2(k)
  {
    QuotientFits(n);
    ExcessBound(n, k);
    PowGrows(Excess(n), k);
    RoundToBound(n, Pow2(Excess(n)), Pow2(k));
  }

  lemma RoundToBound(n: nat, unit: nat, top: nat)
    requires 0 < unit <= top && n / unit < TWO_53
    ensures RoundTo(n, unit) <= TWO_53 * top
  {
    RoundsToNearest(n, unit);
    TimesLeq(n / unit + 1, TWO_53, unit, top);
  }

  lemma PowTen()
    ensures Pow2(10) == 1024 && Pow2(11) == 2048
  {
    assert Pow2(5) == 32;
  }

  lemma {:induction false} ExcessOfPower(k: nat)
    ensures Excess(TWO_53 * Pow2(k)) == k + 1
  {
    if k > 0 {
      ExcessOfPower(k - 1);
      assert TWO_53 * Pow2(k) == 2 * (TWO_53 * Pow2(k - 1));
    }
  }

  /** The least 64-bit integer is a double. */
  lemma LeastIsExact()
    ensures Rounded(TWO_63) == TWO_63
  {
    PowTen();
    ExcessOfPower(10);
  }

  // ---- conditions and payloads -------------------------------------------------------------------------------------

  /** A payload value. A string carries the instant it denotes, where it is an ISO date-time with an offset. */
  datatype Value =
    | Null
    | Text(chars: string, instant: Option<int>)
    | Integer(number: int)
    | Float(size: real)
    | Boolean(flag: bool)
    | Nested

  datatype FieldType = KeywordField | IntegerField | FloatField | BooleanField | DatetimeField

  datatype Operand = Eq(value: Value) | In(values: seq<Value>) | Gte(value: Value) | Lte(value: Value)

  datatype Condition = Condition(path: nat, fieldType: FieldType, operand: Operand)

  datatype Filter = Filter(documentIds: seq<string>, conditions: seq<Condition>)

  datatype Payload = Payload(documentId: Value, metadata: map<nat, Value>)

  /** `_fake_condition_value`: a missing path reads as None. */
  function At(p: Payload, path: nat): Value { if path in p.metadata then p.metadata[path] else Null }

  /** `_valid_search_value`. */
  predicate ValidValue(t: FieldType, v: Value) {
    match t
    case KeywordField => v.Text? && |v.chars| <= 4096 && '\0' !in v.chars
    case IntegerField => v.Integer? && -TWO_63 <= v.number <= TWO_63 - 1
    case FloatField => v.Float? || (v.Integer? && Finite(v.number))
    case BooleanField => v.Boolean?
    case DatetimeField => v.Text? && v.instant.Some?
  }

  /** `_exact_qdrant_range_integer`. */
  predicate ExactInteger(n: int) { Finite(n) && ToDouble(n) == n }

  /** `QdrantFilterCondition.__post_init__`. */
  predicate ValidCondition(c: Condition) {
    match c.operand
    case Eq(v) => ValidValue(c.fieldType, v)
    case In(vs) => 1 <= |vs| <= 100 && forall i | 0 <= i < |vs| :: ValidValue(c.fieldType, vs[i])
    case Gte(v) => ValidRange(c.fieldType, v)
    case Lte(v) => ValidRange(c.fieldType, v)
  }

  predicate ValidRange(t: FieldType, v: Value) {
    && !t.KeywordField? && !t.BooleanField?
    && ValidValue(t, v)
    && (t.IntegerField? ==> ExactInteger(v.number))
  }

  predicate ValidFilter(f: Filter) { forall i | 0 <= i < |f.conditions| :: ValidCondition(f.conditions[i]) }

  // ---- the reference evaluator ------------------------------------------------------------------------------------------

  /** `_fake_comparable` of a number: `float()` for a float field, the integer itself otherwise. */
  function Comparable(t: FieldType, v: Value): real
    requires v.Integer? || v.Float?
  {
    match v
    case Integer(n) => (if t.FloatField? then ToDouble(n) else n) as real
    case Float(x) => x
  }

  predicate Same(t: FieldType, a: Value, b: Value)
    requires ValidValue(t, a) && ValidValue(t, b)
  {
    match t
    case KeywordField => a.chars == b.chars
    case BooleanField => a.flag == b.flag
    case DatetimeField => a.instant == b.instant
    case _ => Comparable(t, a) == Comparable(t, b)
  }

  predicate AtLeast(t: FieldType, a: Value, b: Value)
    requires ValidRange(t, b) && ValidValue(t, a)
  {
    if t.DatetimeField? then a.instant.value >= b.instant.value else Comparable(t, a) >= Comparable(t, b)
  }

  predicate AtMost(t: FieldType, a: Value, b: Value)
    requires ValidRange(t, b) && ValidValue(t, a)
  {
    if t.DatetimeField? then a.instant.value <= b.instant.value else Comparable(t, a) <= Comparable(t, b)
  }

  /** `_fake_matches_condition`, for the value at the condition's path. */
  predicate ReferenceValue(c: Condition, actual: Value)
    requires ValidCondition(c)
  {
    if actual.Null? || !ValidValue(c.fieldType, actual) then false
    else match c.operand
      case Eq(v) => Same(c.fieldType, actual, v)
      case In(vs) => exists i | 0 <= i < |vs| :: Same(c.fieldType, actual, vs[i])
      case Gte(v) => AtLeast(c.fieldType, actual, v)
      case Lte(v) => AtMost(c.fieldType, actual, v)
  }

  predicate InIds(ids: seq<string>, v: Value) { v.Text? && v.chars in ids }

  /** `_fake_matches_filter`. */
  predicate Reference(f: Filter, p: Payload)
    requires ValidFilter(f)
  {
    && (f.documentIds != [] ==> InIds(f.documentIds, p.documentId))
    && forall i | 0 <= i < |f.conditions| :: ReferenceValue(f.conditions[i], At(p, f.conditions[i].path))
  }

  // ---- the compiled filter -------------------------------------------------------------------------------------------------

  datatype Test =
    | MatchValue(value: Value)
    | MatchAny(values: seq<Value>)
    | Range(gte: Option<real>, lte: Option<real>)
    | DatetimeRange(from: Option<int>, to: Option<int>)

  datatype Clause =
    | Field(path: nat, test: Test)
    | DocumentField(test: Test)
    | Should(clauses: seq<Clause>)

  /** `float(value)` of a bound. */
  function Bound(v: Value): real
    requires v.Integer? || v.Float?
  {
    if v.Integer? then ToDouble(v.number) as real else v.size
  }

  /** `_exact_range_condition`. */
  function ExactRange(c: Condition, v: Value): Clause
    requires ValidValue(c.fieldType, v) && (c.fieldType.DatetimeField? || c.fieldType.FloatField?)
  {
    if c.fieldType.DatetimeField? then Field(c.path, DatetimeRange(v.instant, v.instant))
    else Field(c.path, Range(Some(Bound(v)), Some(Bound(v))))
  }

  function OneOf(c: Condition, v: Value): Clause
    requires ValidValue(c.fieldType, v) && (c.fieldType.DatetimeField? || c.fieldType.FloatField? || c.fieldType.BooleanField?)
  {
    if c.fieldType.BooleanField? then Field(c.path, MatchValue(v)) else ExactRange(c, v)
  }

  /** `_search_condition`. */
  function Compile(c: Condition): Clause
    requires ValidCondition(c)
  {
    match c.operand
    case Eq(v) =>
      if c.fieldType.FloatField? || c.fieldType.DatetimeField? then ExactRange(c, v) else Field(c.path, MatchValue(v))
    case In(vs) =>
      if c.fieldType.FloatField? || c.fieldType.DatetimeField? || c.fieldType.BooleanField? then
        Should(seq(|vs|, i requires 0 <= i < |vs| => OneOf(c, vs[i])))
      else Field(c.path, MatchAny(vs))
    case Gte(v) =>
      if c.fieldType.DatetimeField? then Field(c.path, DatetimeRange(v.instant, None))
      else Field(c.path, Range(Some(Bound(v)), None))
    case Lte(v) =>
      if c.fieldType.DatetimeField? then Field(c.path, DatetimeRange(None, v.instant))
      else Field(c.path, Range(None, Some(Bound(v))))
  }

  /** `_search_filter`: the clauses under `must`; none of them where the code returns None. */
  function CompileFilter(f: Filter): seq<Clause>
    requires ValidFilter(f)
  {
    (if f.documentIds == [] then []
     else [DocumentField(MatchAny(seq(|f.documentIds|, i requires 0 <= i < |f.documentIds| => Text(f.documentIds[i], None))))])
    + seq(|f.conditions|, i requires 0 <= i < |f.conditions| => Compile(f.conditions[i]))
  }

  // ---- what it means -------------------------------------------------------------------------------------------------------

  /** A match is of the same kind: an integer never matches a boolean or a float. */
  predicate Equal(a: Value, b: Value) {
    match a
    case Text(s, _) => b.Text? && b.chars == s
    case Integer(n) => b.Integer? && b.number == n
    case Boolean(f) => b.Boolean? && b.flag == f
    case _ => false
  }

  predicate Passes(t: Test, v: Value) {
    match t
    case MatchValue(x) => Equal(x, v)
    case MatchAny(xs) => exists i | 0 <= i < |xs| :: Equal(xs[i], v)
    case Range(gte, lte) =>
      && (v.Integer? || v.Float?)
      && (gte.Some? ==> Exact(v) >= gte.value) && (lte.Some? ==> Exact(v) <= lte.value)
    case DatetimeRange(from, to) =>
      && v.Text? && v.instant.Some?
      && (from.Some? ==> v.instant.value >= from.value) && (to.Some? ==> v.instant.value <= to.value)
  }

  function Exact(v: Value): real
    requires v.Integer? || v.Float?
  {
    if v.Integer? then v.number as real else v.size
  }

  predicate Meaning(c: Clause, p: Payload) {
    match c
    case Field(path, t) => Passes(t, At(p, path))
    case DocumentField(t) => Passes(t, p.documentId)
    case Should(cs) => exists i | 0 <= i < |cs| :: Meaning(cs[i], p)
  }

  /** `must` over every clause. */
  predicate MeaningAll(cs: seq<Clause>, p: Payload) { forall i | 0 <= i < |cs| :: Meaning(cs[i], p) }

  // ---- agreement -------------------------------------------------------------------------------------------------------------

  /**
   A payload value the compiled filter and the reference read alike: an integer field holds no float
   and no integer beyond 64 bits, a float field no integer that `float()` changes or cannot convert.
   */
  predicate Faithful(t: FieldType, v: Value) {
    && (t.IntegerField? ==> !v.Float? && (v.Integer? ==> -TWO_63 <= v.number <= TWO_63 - 1))
    && (t.FloatField? && v.Integer? ==> ExactInteger(v.number))
  }

  lemma EqAgrees(c: Condition, v: Value, p: Payload)
    requires ValidCondition(c) && Faithful(c.fieldType, At(p, c.path)) && ValidValue(c.fieldType, v)
    ensures (if c.fieldType.FloatField? || c.fieldType.DatetimeField? then Meaning(ExactRange(c, v), p)
             else Passes(MatchValue(v), At(p, c.path)))
        <==> ValidValue(c.fieldType, At(p, c.path)) && Same(c.fieldType, At(p, c.path), v)
  {}

  lemma ConditionAgrees(c: Condition, p: Payload)
    requires ValidCondition(c) && Faithful(c.fieldType, At(p, c.path))
    ensures Meaning(Compile(c), p) <==> ReferenceValue(c, At(p, c.path))
  {
    match c.operand
    case Eq(v) => EqAgrees(c, v, p);
    case In(vs) => InAgrees(c, vs, p);
    case Gte(v) => BoundAgrees(c, v, At(p, c.path));
    case Lte(v) => BoundAgrees(c, v, At(p, c.path));
  }

  lemma BoundAgrees(c: Condition, v: Value, actual: Value)
    requires ValidCondition(c) && Faithful(c.fieldType, actual) && (c.operand == Gte(v) || c.operand == Lte(v))
    ensures Passes(Compile(c).test, actual) <==> ReferenceValue(c, actual)
  {}

  lemma InAgrees(c: Condition, vs: seq<Value>, p: Payload)
    requires ValidCondition(c) && c.operand == In(vs) && Faithful(c.fieldType, At(p, c.path))
    ensures Meaning(Compile(c), p) <==> ReferenceValue(c, At(p, c.path))
  {
    forall i | 0 <= i < |vs|
      ensures (if c.fieldType.FloatField? || c.fieldType.DatetimeField? then Meaning(ExactRange(c, vs[i]), p)
               else Passes(MatchValue(vs[i]), At(p, c.path)))
          <==> ValidValue(c.fieldType, At(p, c.path)) && Same(c.fieldType, At(p, c.path), vs[i])
    {
      EqAgrees(c, vs[i], p);
    }
    if c.fieldType.KeywordField? || c.fieldType.IntegerField? {
      AnyAgrees(c, vs, p);
    } else {
      ShouldAgrees(c, vs, p);
    }
  }

  lemma AnyAgrees(c: Condition, vs: seq<Value>, p: Payload)
    requires ValidCondition(c) && c.operand == In(vs) && (c.fieldType.KeywordField? || c.fieldType.IntegerField?)
    requires forall i | 0 <= i < |vs| ::
               Passes(MatchValue(vs[i]), At(p, c.path)) <==> ValidValue(c.fieldType, At(p, c.path)) && Same(c.fieldType, At(p, c.path), vs[i])
    ensures Meaning(Compile(c), p) <==> ReferenceValue(c, At(p, c.path))
  {
    var actual := At(p, c.path);
    if Meaning(Compile(c), p) {
      var i :| 0 <= i < |vs| && Equal(vs[i], actual);
      assert Passes(MatchValue(vs[i]), actual);
    }
    if ReferenceValue(c, actual) {
      var i :| 0 <= i < |vs| && Same(c.fieldType, actual, vs[i]);
      assert Passes(MatchValue(vs[i]), actual);
      assert Equal(vs[i], actual);
    }
  }

  lemma ShouldAgrees(c: Condition, vs: seq<Value>, p: Payload)
    requires ValidCondition(c) && c.operand == In(vs)
    requires c.fieldType.FloatField? || c.fieldType.DatetimeField? || c.fieldType.BooleanField?
    requires forall i | 0 <= i < |vs| ::
               Meaning(OneOf(c, vs[i]), p) <==> ValidValue(c.fieldType, At(p, c.path)) && Same(c.fieldType, At(p, c.path), vs[i])
    ensures Meaning(Compile(c), p) <==> ReferenceValue(c, At(p, c.path))
  {
    var clauses := Compile(c).clauses;
    var actual := At(p, c.path);
    if Meaning(Compile(c), p) {
      var i :| 0 <= i < |clauses| && Meaning(clauses[i], p);
      assert Meaning(OneOf(c, vs[i]), p);
    }
    if ReferenceValue(c, actual) {
      var i :| 0 <= i < |vs| && Same(c.fieldType, actual, vs[i]);
      assert Meaning(OneOf(c, vs[i]), p);
      assert Meaning(clauses[i], p);
    }
  }

  /** The compiled filter means what the reference evaluator computes, on every payload whose filtered fields are faithful. */
  lemma FilterAgrees(f: Filter, p: Payload)
    requires ValidFilter(f)
    requires forall i | 0 <= i < |f.conditions| :: Faithful(f.conditions[i].fieldType, At(p, f.conditions[i].path))
    ensures MeaningAll(CompileFilter(f), p) <==> Reference(f, p)
  {
    var compiled := CompileFilter(f);
    var head := if f.documentIds == [] then 0 else 1;
    if f.documentIds != [] {
      IdsAgree(f, p);
    }
    forall i | 0 <= i < |f.conditions|
      ensures compiled[head + i] == Compile(f.conditions[i])
      ensures Meaning(compiled[head + i], p) <==> ReferenceValue(f.conditions[i], At(p, f.conditions[i].path))
    {
      ConditionAgrees(f.conditions[i], p);
    }
    if Reference(f, p) {
      forall j | 0 <= j < |compiled| ensures Meaning(compiled[j], p) {
        if j >= head {
          assert compiled[head + (j - head)] == Compile(f.conditions[j - head]);
        }
      }
    }
    if MeaningAll(compiled, p) {
      forall i | 0 <= i < |f.conditions| ensures ReferenceValue(f.conditions[i], At(p, f.conditions[i].path)) {
        assert Meaning(compiled[head + i], p);
      }
      if f.documentIds != [] {
        assert Meaning(compiled[0], p);
      }
    }
  }

  lemma IdsAgree(f: Filter, p: Payload)
    requires ValidFilter(f) && f.documentIds != []
    ensures Meaning(CompileFilter(f)[0], p) <==> InIds(f.documentIds, p.documentId)
  {
    var test := CompileFilter(f)[0].test;
    if InIds(f.documentIds, p.documentId) {
      var i :| 0 <= i < |f.documentIds| && f.documentIds[i] == p.documentId.chars;
      assert Equal(test.values[i], p.documentId);
    }
  }

  // ---- where they disagree -------------------------------------------------------------------------------------------------------

  predicate Agrees(c: Condition, v: Value)
    requires ValidCondition(c)
  {
    Meaning(Compile(c), Payload(Null, map[c.path := v])) <==> ReferenceValue(c, v)
  }

  /**
   A payload value is faithful exactly when every valid condition on its field is read alike. An
   unfaithful one is told apart by a range at zero, or by equality with what `float()` makes of it.
   */
  lemma FaithfulExactly(t: FieldType, v: Value)
    ensures Faithful(t, v) <==> forall c: Condition | c.fieldType == t && ValidCondition(c) :: Agrees(c, v)
  {
    if Faithful(t, v) {
      forall c: Condition | c.fieldType == t && ValidCondition(c) ensures Agrees(c, v) {
        var p := Payload(Null, map[c.path := v]);
        assert At(p, c.path) == v;
        ConditionAgrees(c, p);
      }
    } else {
      var c := Separator(t, v);
      assert !Agrees(c, v);
    }
  }

  /** A range at zero, open towards the value. */
  function TowardsValue(t: FieldType, v: Value, zero: Value): Condition
    requires v.Integer? || v.Float?
  {
    Condition(0, t, if Exact(v) >= 0.0 then Gte(zero) else Lte(zero))
  }

  lemma Separator(t: FieldType, v: Value) returns (c: Condition)
    requires !Faithful(t, v)
    ensures c.fieldType == t && ValidCondition(c) && !Agrees(c, v)
  {
    SmallIsExact(0);
    if t.IntegerField? {
      c := TowardsValue(t, v, Integer(0));
    } else if !Finite(v.number) {
      c := TowardsValue(t, v, Float(0.0));
    } else {
      c := Condition(0, t, Eq(Float(ToDouble(v.number) as real)));
    }
    assert At(Payload(Null, map[0 := v]), 0) == v;
  }

  /** A 64-bit integer never overflows, and rounding leaves it in range. */
  lemma SixtyFourBitsConvert(n: int)
    requires -TWO_63 <= n <= TWO_63 - 1
    ensures Finite(n) && -TWO_63 <= ToDouble(n) <= TWO_63
  {
    var m := if n < 0 then -n else n;
    PowTen();
    if m == TWO_63 {
      LeastIsExact();
    } else {
      RoundedBound(m, 10);
    }
    ExcessBound(Rounded(m), 11);
  }

  lemma {:induction false} ExcessAtLeast(n: nat, k: nat)
    requires TWO_53 * Pow2(k) <= n
    ensures k + 1 <= Excess(n)
  {
    if k == 0 {
      assert Pow2(0) == 1;
    } else {
      assert TWO_53 * Pow2(k) == 2 * (TWO_53 * Pow2(k - 1));
      ExcessAtLeast(n / 2, k - 1);
      assert n >= TWO_53 by { PowGrows(0, k); TimesLeq(TWO_53, TWO_53, 1, Pow2(k)); }
    }
  }

  /** The greatest 64-bit integer is rounded up, out of the 64-bit range. */
  lemma GreatestRoundsUp()
    ensures ToDouble(TWO_63 - 1) == TWO_63 && !ExactInteger(TWO_63 - 1)
  {
    PowTen();
    assert Pow2(9) == 512;
    ExcessAtLeast(TWO_63 - 1, 9);
    ExcessBound(TWO_63 - 1, 10);
  }

  /** What the compiled bounds accept. */
  predicate FromBound(n: int, m: int) { Passes(Range(Some(Bound(Integer(n))), None), Integer(m)) }

  predicate UpToBound(n: int, m: int) { Passes(Range(None, Some(Bound(Integer(n)))), Integer(m)) }

  /**
   The guard on integer bounds is exact for lower bounds: with it no 64-bit payload is read
   differently, without it some payload would be. For upper bounds it refuses one integer too many,
   the greatest, whose rounded bound still admits every 64-bit payload.
   */
  lemma GuardIsExact(n: int)
    requires -TWO_63 <= n <= TWO_63 - 1
    ensures ExactInteger(n) <==> forall m: int | -TWO_63 <= m <= TWO_63 - 1 :: FromBound(n, m) <==> m >= n
    ensures ExactInteger(n) || n == TWO_63 - 1 <==> forall m: int | -TWO_63 <= m <= TWO_63 - 1 :: UpToBound(n, m) <==> m <= n
  {
    SixtyFourBitsConvert(n);
    GreatestRoundsUp();
    if !ExactInteger(n) {
      GuardSeparates(n);
    }
  }

  lemma GuardSeparates(n: int)
    requires -TWO_63 <= n <= TWO_63 - 1 && !ExactInteger(n)
    ensures exists m: int | -TWO_63 <= m <= TWO_63 - 1 :: FromBound(n, m) != (m >= n)
    ensures n < TWO_63 - 1 ==> exists m: int | -TWO_63 <= m <= TWO_63 - 1 :: UpToBound(n, m) != (m <= n)
  {
    SixtyFourBitsConvert(n);
    var b := ToDouble(n);
    var m := if b < n then b else n;
    assert FromBound(n, m) != (m >= n);
    if n < TWO_63 - 1 {
      var k := if b < n then n else n + 1;
      assert UpToBound(n, k) != (k <= n);
    }
  }
}
