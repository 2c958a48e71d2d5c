/**
 Canonical JSON, indexing/identities.py, and canonical JSON lines, ingestion/artifacts.py: two values
 have the same bytes exactly when they are the same tree up to the order of object keys.
 */
module CanonicalJson {
  import opened Prelude
  import opened Utf8
  import opened Json

  // ---- the order of keys --------------------------------------------------------------------------------------

  /** Python's string order: by code point. */
  predicate Less(a: Text, b: Text) {
    b != [] && (a == [] || a[0] < b[0] || (a[0] == b[0] && Less(a[1..], b[1..])))
  }

  lemma {:induction false} LessIsTotal(a: Text, b: Text)
    ensures a == b || Less(a, b) || Less(b, a)
  {
    if a != [] && b != [] && a[0] == b[0] {
      LessIsTotal(a[1..], b[1..]);
      assert a == [a[0]] + a[1..] && b == [b[0]] + b[1..];
    }
  }

  lemma {:induction false} LessIsTransitive(a: Text, b: Text, c: Text)
    requires Less(a, b) && Less(b, c)
    ensures Less(a, c)
  {
    if a != [] && a[0] == b[0] && b[0] == c[0] {
      LessIsTransitive(a[1..], b[1..], c[1..]);
    }
  }

  lemma {:induction false} LessIsIrreflexive(a: Text)
    ensures !Less(a, a)
  {
    if a != [] {
      LessIsIrreflexive(a[1..]);
    }
  }

  /** The two texts agree before j, and there the first one ends or has the smaller code point. */
  predicate DifferAt(a: Text, b: Text, j: int) {
    0 <= j <= |a| && j < |b| && a[..j] == b[..j] && (j == |a| || a[j] < b[j])
  }

  lemma AgreeAtTheStart(a: Text, b: Text, j: int)
    requires DifferAt(a, b, j)
    ensures j == 0 || (a != [] && a[0] == b[0])
  {
    if j > 0 {
      assert a[0] == a[..j][0] && b[0] == b[..j][0];
    }
  }

  /** One text comes before another exactly when it is a shorter beginning of it, or smaller where they first differ. */
  lemma {:induction false} LessExactly(a: Text, b: Text)
    ensures Less(a, b) <==> exists j :: DifferAt(a, b, j)
  {
    if a == [] || b == [] || a[0] != b[0] {
      if Less(a, b) {
        assert DifferAt(a, b, 0);
      }
      if j :| DifferAt(a, b, j) {
        AgreeAtTheStart(a, b, j);
      }
    } else {
      LessExactly(a[1..], b[1..]);
      if Less(a[1..], b[1..]) {
        var j :| DifferAt(a[1..], b[1..], j);
        assert a[..j+1] == [a[0]] + a[1..][..j] && b[..j+1] == [b[0]] + b[1..][..j];
        assert DifferAt(a, b, j + 1);
      }
      if j :| DifferAt(a, b, j) {
        assert j > 0;
        assert a[1..][..j-1] == a[..j][1..] && b[1..][..j-1] == b[..j][1..];
        assert DifferAt(a[1..], b[1..], j - 1);
      }
    }
  }

  predicate Named(members: seq<Member>) { forall i | 0 <= i < |members| :: members[i].key.Name? }

  predicate Ordered(members: seq<Member>) {
    && Named(members)
    && forall i, j | 0 <= i < j < |members| :: Less(members[i].key.text, members[j].key.text)
  }

  // ---- sorting ---------------------------------------------------------------------------------------------------

  function Insert(m: Member, sorted: seq<Member>): seq<Member>
    requires m.key.Name? && Named(sorted)
  {
    if sorted == [] then [m]
    else if Less(m.key.text, sorted[0].key.text) then [m] + sorted
    else [sorted[0]] + Insert(m, sorted[1..])
  }

  lemma {:induction false} InsertKeeps(m: Member, sorted: seq<Member>)
    requires m.key.Name? && Named(sorted)
    ensures Named(Insert(m, sorted)) && |Insert(m, sorted)| == |sorted| + 1
    ensures forall x :: x in Insert(m, sorted) <==> x == m || x in sorted
  {
    if sorted != [] && !Less(m.key.text, sorted[0].key.text) {
      InsertKeeps(m, sorted[1..]);
      assert sorted == [sorted[0]] + sorted[1..];
    }
  }

  lemma {:induction false} InsertOrders(m: Member, sorted: seq<Member>)
    requires m.key.Name? && Ordered(sorted)
    requires forall i | 0 <= i < |sorted| :: sorted[i].key != m.key
    ensures Ordered(Insert(m, sorted))
  {
    InsertKeeps(m, sorted);
    if sorted == [] {
    } else if Less(m.key.text, sorted[0].key.text) {
      forall j | 0 <= j < |sorted| ensures Less(m.key.text, sorted[j].key.text) {
        if j > 0 {
          LessIsTransitive(m.key.text, sorted[0].key.text, sorted[j].key.text);
        }
      }
    } else {
      LessIsTotal(m.key.text, sorted[0].key.text);
      InsertOrders(m, sorted[1..]);
      InsertKeeps(m, sorted[1..]);
      var more := Insert(m, sorted[1..]);
      forall j | 0 <= j < |more| ensures Less(sorted[0].key.text, more[j].key.text) {
        assert more[j] in more;
        if more[j] != m {
          var k :| 0 <= k < |sorted[1..]| && sorted[1..][k] == more[j];
          assert Less(sorted[0].key.text, sorted[k + 1].key.text);
        }
      }
    }
  }

  function Sort(members: seq<Member>): (r: seq<Member>)
    requires Named(members)
    ensures Named(r) && |r| == |members|
  {
    if members == [] then []
    else
      var more := Sort(members[1..]);
      InsertKeeps(members[0], more);
      Insert(members[0], more)
  }

  lemma {:induction false} SortKeeps(members: seq<Member>)
    requires Named(members)
    ensures forall x :: x in Sort(members) <==> x in members
  {
    if members != [] {
      SortKeeps(members[1..]);
      InsertKeeps(members[0], Sort(members[1..]));
      assert members == [members[0]] + members[1..];
    }
  }

  lemma {:induction false} SortOrders(members: seq<Member>)
    requires Named(members) && DistinctKeys(members)
    ensures Ordered(Sort(members))
  {
    if members != [] {
      var more := Sort(members[1..]);
      SortOrders(members[1..]);
      SortKeeps(members[1..]);
      forall i | 0 <= i < |more| ensures more[i].key != members[0].key {
        assert more[i] in more;
        var k :| 0 <= k < |members[1..]| && members[1..][k] == more[i];
        assert members[0].key != members[k + 1].key;
      }
      InsertOrders(members[0], more);
    }
  }

  lemma HasMember(a: seq<Member>)
    requires a != []
    ensures exists x :: x in a
  {
    assert a[0] in a;
  }

  /** An ordered sequence is determined by its elements. */
  lemma {:induction false} OrderedIsUnique(a: seq<Member>, b: seq<Member>)
    requires Ordered(a) && Ordered(b)
    requires forall x :: x in a <==> x in b
    ensures a == b
  {
    if a == [] {
      if b != [] {
        HasMember(b);
        assert false;
      }
    } else {
      assert a[0] in b && b != [];
      assert b[0] in a;
      FirstIsLeast(a, b[0]);
      FirstIsLeast(b, a[0]);
      if a[0] != b[0] {
        LessIsTransitive(a[0].key.text, b[0].key.text, a[0].key.text);
        LessIsIrreflexive(a[0].key.text);
        assert false;
      }
      forall x ensures x in a[1..] <==> x in b[1..] {
        InTail(a, x);
        InTail(b, x);
      }
      OrderedIsUnique(a[1..], b[1..]);
      assert a == [a[0]] + a[1..] && b == [b[0]] + b[1..];
    }
  }

  lemma FirstIsLeast(a: seq<Member>, x: Member)
    requires Ordered(a) && x in a
    ensures x == a[0] || Less(a[0].key.text, x.key.text)
  {
    var i :| 0 <= i < |a| && a[i] == x;
  }

  lemma InTail(a: seq<Member>, x: Member)
    requires Ordered(a) && a != []
    ensures x in a[1..] <==> x in a && x != a[0]
  {
    if x in a[1..] {
      var i :| 0 <= i < |a[1..]| && a[1..][i] == x;
      assert Less(a[0].key.text, a[i + 1].key.text);
      LessIsIrreflexive(a[0].key.text);
    }
    if x in a && x != a[0] {
      var i :| 0 <= i < |a| && a[i] == x;
      assert a[1..][i - 1] == x;
    }
  }

  // ---- canonical values ---------------------------------------------------------------------------------------------

  /** `_validated_json`, on a well-typed value: every object's keys are sorted. */
  function Canon(v: Value): (r: Value)
    requires WellTyped(v)
    decreases v, 0
  {
    match v
    case Arr(items) => Arr(CanonItems(items))
    case Obj(members) => Obj(Sort(CanonMembers(members)))
    case _ => v
  }

  function CanonItems(items: seq<Value>): (r: seq<Value>)
    requires forall i | 0 <= i < |items| :: WellTyped(items[i])
    ensures |r| == |items| && forall i | 0 <= i < |r| :: r[i] == Canon(items[i])
    decreases items, |items|
  {
    if items == [] then [] else [Canon(items[0])] + CanonItems(items[1..])
  }

  function CanonMember(m: Member): (r: Member)
    requires MemberOk(m)
    decreases m, 1
  {
    Member(m.key, Canon(m.value))
  }

  function CanonMembers(members: seq<Member>): (r: seq<Member>)
    requires forall i | 0 <= i < |members| :: MemberOk(members[i])
    ensures |r| == |members| && forall i | 0 <= i < |r| :: r[i] == CanonMember(members[i])
    ensures Named(r)
    decreases members, |members|
  {
    if members == [] then [] else [CanonMember(members[0])] + CanonMembers(members[1..])
  }

  /** The same tree up to the order of object keys. */
  ghost predicate SameTree(a: Value, b: Value)
    decreases a, 0
  {
    match a
    case Arr(items) =>
      b.Arr? && |items| == |b.items| && forall i | 0 <= i < |items| :: SameTree(items[i], b.items[i])
    case Obj(members) => b.Obj? && Covered(members, b.members) && Covering(members, b.members)
    case _ => a == b
  }

  ghost predicate SameMember(x: Member, y: Member)
    decreases x, 1
  {
    x.key == y.key && SameTree(x.value, y.value)
  }

  ghost predicate Covered(a: seq<Member>, b: seq<Member>)
    decreases a, 2
  {
    forall i | 0 <= i < |a| :: exists j | 0 <= j < |b| :: SameMember(a[i], b[j])
  }

  ghost predicate Covering(a: seq<Member>, b: seq<Member>)
    decreases a, 2
  {
    forall j | 0 <= j < |b| :: exists i | 0 <= i < |a| :: SameMember(a[i], b[j])
  }

  lemma {:induction false} CanonIsWellTyped(v: Value)
    requires WellTyped(v)
    ensures WellTyped(Canon(v))
    decreases v
  {
    match v
    case Arr(items) =>
      forall i | 0 <= i < |items| ensures WellTyped(CanonItems(items)[i]) {
        CanonIsWellTyped(items[i]);
      }
    case Obj(members) =>
      forall i | 0 <= i < |members| ensures WellTyped(CanonMembers(members)[i].value) {
        CanonIsWellTyped(members[i].value);
      }
      SortedIsWellTyped(members);
    case _ =>
  }

  lemma CanonMembersDistinct(members: seq<Member>)
    requires WellTyped(Obj(members))
    ensures DistinctKeys(CanonMembers(members)) && Ordered(Sort(CanonMembers(members)))
  {
    var c := CanonMembers(members);
    forall i, j | 0 <= i < j < |c| ensures c[i].key != c[j].key {
      assert members[i].key != members[j].key;
    }
    SortOrders(c);
  }

  lemma SortedIsWellTyped(members: seq<Member>)
    requires WellTyped(Obj(members))
    requires forall i | 0 <= i < |members| :: WellTyped(CanonMembers(members)[i].value)
    ensures WellTyped(Obj(Sort(CanonMembers(members))))
  {
    var c := CanonMembers(members);
    var s := Sort(c);
    CanonMembersDistinct(members);
    SortKeeps(c);
    forall i | 0 <= i < |s| ensures s[i].key.Name? && WellTyped(s[i].value) {
      assert s[i] in s;
      var k :| 0 <= k < |c| && c[k] == s[i];
    }
    forall i, j | 0 <= i < j < |s| ensures s[i].key != s[j].key {
      LessIsIrreflexive(s[i].key.text);
    }
  }

  /** Canonical values are equal exactly when the values are the same tree. */
  lemma {:induction false} CanonSeparatesTrees(a: Value, b: Value)
    requires WellTyped(a) && WellTyped(b)
    ensures Canon(a) == Canon(b) <==> SameTree(a, b)
    decreases a
  {
    match a
    case Arr(items) =>
      if b.Arr? && |items| == |b.items| {
        forall i | 0 <= i < |items| ensures Canon(items[i]) == Canon(b.items[i]) <==> SameTree(items[i], b.items[i]) {
          CanonSeparatesTrees(items[i], b.items[i]);
        }
        ArraysAgree(items, b.items);
      } else if b.Arr? {
        assert |CanonItems(items)| != |CanonItems(b.items)|;
      }
    case Obj(members) =>
      if b.Obj? {
        forall i, j | 0 <= i < |members| && 0 <= j < |b.members|
          ensures CanonMember(members[i]) == CanonMember(b.members[j]) <==> SameMember(members[i], b.members[j])
        {
          CanonSeparatesTrees(members[i].value, b.members[j].value);
        }
        ObjectsAgree(members, b.members);
      }
    case _ =>
  }

  lemma ArraysAgree(a: seq<Value>, b: seq<Value>)
    requires WellTyped(Arr(a)) && WellTyped(Arr(b)) && |a| == |b|
    requires forall i | 0 <= i < |a| :: Canon(a[i]) == Canon(b[i]) <==> SameTree(a[i], b[i])
    ensures CanonItems(a) == CanonItems(b) <==> SameTree(Arr(a), Arr(b))
  {
    if CanonItems(a) == CanonItems(b) {
      forall i | 0 <= i < |a| ensures SameTree(a[i], b[i]) {
        assert CanonItems(a)[i] == CanonItems(b)[i];
      }
    }
  }

  /** Each member of one object has a member of the other with the same key and canonical value. */
  ghost predicate Within(a: seq<Member>, b: seq<Member>)
    requires (forall i | 0 <= i < |a| :: MemberOk(a[i])) && forall i | 0 <= i < |b| :: MemberOk(b[i])
  {
    forall i | 0 <= i < |a| :: exists j | 0 <= j < |b| :: CanonMember(a[i]) == CanonMember(b[j])
  }

  ghost predicate Included(a: seq<Member>, b: seq<Member>) { forall x :: x in a ==> x in b }

  lemma WithinIsInclusion(a: seq<Member>, b: seq<Member>)
    requires (forall i | 0 <= i < |a| :: MemberOk(a[i])) && forall i | 0 <= i < |b| :: MemberOk(b[i])
    ensures Within(a, b) <==> Included(CanonMembers(a), CanonMembers(b))
  {
    var ca, cb := CanonMembers(a), CanonMembers(b);
    if Within(a, b) {
      forall x | x in ca ensures x in cb {
        var i :| 0 <= i < |ca| && ca[i] == x;
        var j :| 0 <= j < |b| && CanonMember(a[i]) == CanonMember(b[j]);
        assert cb[j] == x;
      }
    }
    if Included(ca, cb) {
      forall i | 0 <= i < |a| ensures exists j | 0 <= j < |b| :: CanonMember(a[i]) == CanonMember(b[j]) {
        assert ca[i] in cb;
        var j :| 0 <= j < |cb| && cb[j] == ca[i];
        assert CanonMember(a[i]) == CanonMember(b[j]);
      }
    }
  }

  /** Canonical equality and sameness agree on every pair of members. */
  ghost predicate PairsAgree(a: seq<Member>, b: seq<Member>)
    requires (forall i | 0 <= i < |a| :: MemberOk(a[i])) && forall i | 0 <= i < |b| :: MemberOk(b[i])
  {
    forall i, j | 0 <= i < |a| && 0 <= j < |b| ::
      CanonMember(a[i]) == CanonMember(b[j]) <==> SameMember(a[i], b[j])
  }

  lemma ObjectsAgree(a: seq<Member>, b: seq<Member>)
    requires WellTyped(Obj(a)) && WellTyped(Obj(b)) && PairsAgree(a, b)
    ensures Sort(CanonMembers(a)) == Sort(CanonMembers(b)) <==> Covered(a, b) && Covering(a, b)
  {
    CoveredIsWithin(a, b);
    CoveringIsWithin(a, b);
    WithinIsInclusion(a, b);
    WithinIsInclusion(b, a);
    SortedAgree(CanonMembers(a), CanonMembers(b), a, b);
  }

  lemma SortedAgree(ca: seq<Member>, cb: seq<Member>, a: seq<Member>, b: seq<Member>)
    requires WellTyped(Obj(a)) && WellTyped(Obj(b)) && ca == CanonMembers(a) && cb == CanonMembers(b)
    ensures Sort(ca) == Sort(cb) <==> Included(ca, cb) && Included(cb, ca)
  {
    SortKeeps(ca);
    SortKeeps(cb);
    CanonMembersDistinct(a);
    CanonMembersDistinct(b);
    if Included(ca, cb) && Included(cb, ca) {
      OrderedIsUnique(Sort(ca), Sort(cb));
    }
    if Sort(ca) == Sort(cb) {
      forall x ensures x in ca <==> x in cb {
        assert x in Sort(ca) <==> x in Sort(cb);
      }
    }
  }

  lemma CoveredIsWithin(a: seq<Member>, b: seq<Member>)
    requires WellTyped(Obj(a)) && WellTyped(Obj(b)) && PairsAgree(a, b)
    ensures Covered(a, b) <==> Within(a, b)
  {
    if Covered(a, b) {
      forall i | 0 <= i < |a| ensures exists j | 0 <= j < |b| :: CanonMember(a[i]) == CanonMember(b[j]) {
        var j :| 0 <= j < |b| && SameMember(a[i], b[j]);
        assert CanonMember(a[i]) == CanonMember(b[j]);
      }
    }
    if Within(a, b) {
      forall i | 0 <= i < |a| ensures exists j | 0 <= j < |b| :: SameMember(a[i], b[j]) {
        var j :| 0 <= j < |b| && CanonMember(a[i]) == CanonMember(b[j]);
        assert SameMember(a[i], b[j]);
      }
    }
  }

  lemma CoveringIsWithin(a: seq<Member>, b: seq<Member>)
    requires WellTyped(Obj(a)) && WellTyped(Obj(b)) && PairsAgree(a, b)
    ensures Covering(a, b) <==> Within(b, a)
  {
    if Covering(a, b) {
      forall j | 0 <= j < |b| ensures exists i | 0 <= i < |a| :: CanonMember(b[j]) == CanonMember(a[i]) {
        var i :| 0 <= i < |a| && SameMember(a[i], b[j]);
        assert CanonMember(b[j]) == CanonMember(a[i]);
      }
    }
    if Within(b, a) {
      forall j | 0 <= j < |b| ensures exists i | 0 <= i < |a| :: SameMember(a[i], b[j]) {
        var i :| 0 <= i < |a| && CanonMember(b[j]) == CanonMember(a[i]);
        assert SameMember(a[i], b[j]);
      }
    }
  }

  // ---- canonical bytes -----------------------------------------------------------------------------------------------

  /** Every integer is short enough for `int.__repr__`. */
  predicate Writable(v: Value) {
    match v
    case Int(n) => |Digits(if n < 0 then -n else n)| <= MAX_INT_DIGITS
    case Arr(items) => forall i | 0 <= i < |items| :: Writable(items[i])
    case Obj(members) => forall i | 0 <= i < |members| :: Writable(members[i].value)
    case _ => true
  }

  /** `canonical_json_bytes`; None is its ValueError. */
  function CanonicalJsonBytes(v: Value): Option<seq<byte>> {
    if WellTyped(v) && Writable(v) then CanonIsWellTyped(v); Some(Encode(TextOf(Canon(v)))) else None
  }

  /** The bytes decode and parse to the canonical value, which is the same tree as the value. */
  lemma ParserRecovers(v: Value)
    requires CanonicalJsonBytes(v).Some?
    ensures var text := Decode(CanonicalJsonBytes(v).value).text;
            && Encode(text) == CanonicalJsonBytes(v).value
            && ParseValue(text) == Parsed(Canon(v), [])
    ensures SameTree(Canon(v), v)
  {
    CanonIsWellTyped(v);
    var text := TextOf(Canon(v));
    DecodeOfEncoded(text);
    ValueRoundTrip(Canon(v), []);
    assert text + [] == text;
    CanonIsIdempotent(v);
    CanonSeparatesTrees(Canon(v), v);
  }

  lemma {:induction false} CanonIsIdempotent(v: Value)
    requires WellTyped(v)
    ensures WellTyped(Canon(v)) && Canon(Canon(v)) == Canon(v)
    decreases v
  {
    CanonIsWellTyped(v);
    match v
    case Arr(items) =>
      var c := CanonItems(items);
      forall i | 0 <= i < |items| ensures CanonItems(c)[i] == c[i] {
        CanonIsIdempotent(items[i]);
      }
      assert CanonItems(c) == c;
    case Obj(members) =>
      forall i | 0 <= i < |members|
        ensures MemberOk(CanonMembers(members)[i]) && CanonMember(CanonMembers(members)[i]) == CanonMembers(members)[i]
      {
        CanonIsIdempotent(members[i].value);
      }
      SortedIsFixed(members);
    case _ =>
  }

  lemma SortedIsFixed(members: seq<Member>)
    requires WellTyped(Obj(members)) && WellTyped(Canon(Obj(members)))
    requires forall i | 0 <= i < |members| ::
               MemberOk(CanonMembers(members)[i]) && CanonMember(CanonMembers(members)[i]) == CanonMembers(members)[i]
    ensures Canon(Canon(Obj(members))) == Canon(Obj(members))
  {
    var c := CanonMembers(members);
    var s := Sort(c);
    SortKeeps(c);
    forall i | 0 <= i < |s| ensures CanonMembers(s)[i] == s[i] {
      assert s[i] in s;
      var k :| 0 <= k < |c| && c[k] == s[i];
    }
    assert CanonMembers(s) == s;
    CanonMembersDistinct(members);
    CanonMembersDistinct(s);
    SortKeeps(s);
    OrderedIsUnique(Sort(s), s);
  }

  /** Two accepted values encode to the same bytes exactly when they are the same tree up to key order. */
  lemma CanonicalIsInjective(a: Value, b: Value)
    requires CanonicalJsonBytes(a).Some? && CanonicalJsonBytes(b).Some?
    ensures CanonicalJsonBytes(a) == CanonicalJsonBytes(b) <==> SameTree(a, b)
  {
    if CanonicalJsonBytes(a) == CanonicalJsonBytes(b) {
      ParserRecovers(a);
      ParserRecovers(b);
    }
    CanonSeparatesTrees(a, b);
  }

  // ---- JSON lines --------------------------------------------------------------------------------------------------------

  const NEWLINE: byte := 10

  lemma {:induction false} EncodedHasNoNewline(t: Text)
    requires NoneBelowSpace(t)
    ensures NEWLINE !in Encode(t)
  {
    if t != [] {
      assert NEWLINE !in EncodeScalar(t[0]);
      EncodedHasNoNewline(t[1..]);
    }
  }

  lemma NoRawNewline(v: Value)
    requires CanonicalJsonBytes(v).Some?
    ensures NEWLINE !in CanonicalJsonBytes(v).value
  {
    CanonIsWellTyped(v);
    TextHasNoLowControls(Canon(v));
    EncodedHasNoNewline(TextOf(Canon(v)));
  }

  /** The records joined, each followed by a newline; None where one of them has no canonical bytes. */
  function JoinRecords(records: seq<Value>): Option<seq<byte>> {
    if records == [] then Some([])
    else
      var first, more := CanonicalJsonBytes(records[0]), JoinRecords(records[1..]);
      if !records[0].Obj? || first.None? || more.None? then None else Some(first.value + [NEWLINE] + more.value)
  }

  /** `canonical_jsonl_bytes`; None is its ValueError. */
  function CanonicalJsonlBytes(records: seq<Value>): Option<seq<byte>> {
    if records == [] then None else JoinRecords(records)
  }

  /** The lines of a stream, each without its newline. */
  function SplitLines(bs: seq<byte>): seq<seq<byte>> {
    if bs == [] then []
    else if bs[0] == NEWLINE then [[]] + SplitLines(bs[1..])
    else
      var more := SplitLines(bs[1..]);
      if more == [] then [[bs[0]]] else [[bs[0]] + more[0]] + more[1..]
  }

  lemma {:induction false} SplitFirstLine(line: seq<byte>, rest: seq<byte>)
    requires NEWLINE !in line
    ensures SplitLines(line + [NEWLINE] + rest) == [line] + SplitLines(rest)
  {
    if line == [] {
      assert line + [NEWLINE] + rest == [NEWLINE] + rest;
    } else {
      SplitFirstLine(line[1..], rest);
      assert (line + [NEWLINE] + rest)[1..] == line[1..] + [NEWLINE] + rest;
      assert [line[0]] + line[1..] == line;
    }
  }

  /** Splitting the lines gives back the records' bytes, hence their trees. */
  lemma {:induction false} LinesAreRecords(records: seq<Value>)
    requires JoinRecords(records).Some?
    ensures |SplitLines(JoinRecords(records).value)| == |records|
    ensures forall i | 0 <= i < |records| ::
              CanonicalJsonBytes(records[i]) == Some(SplitLines(JoinRecords(records).value)[i])
  {
    if records != [] {
      NoRawNewline(records[0]);
      SplitFirstLine(CanonicalJsonBytes(records[0]).value, JoinRecords(records[1..]).value);
      LinesAreRecords(records[1..]);
    }
  }

  /** Accepted record lists with the same bytes hold the same trees, one by one. */
  lemma JsonlIsInjective(a: seq<Value>, b: seq<Value>)
    requires CanonicalJsonlBytes(a).Some? && CanonicalJsonlBytes(a) == CanonicalJsonlBytes(b)
    ensures |a| == |b| && forall i | 0 <= i < |a| :: SameTree(a[i], b[i])
  {
    LinesAreRecords(a);
    LinesAreRecords(b);
    forall i | 0 <= i < |a| ensures SameTree(a[i], b[i]) {
      CanonicalIsInjective(a[i], b[i]);
    }
  }

  // ---- what canonical bytes are -------------------------------------------------------------------------------------------

  /** The keys of a canonical object ascend: each comes before the next by code point. */
  lemma CanonicalKeysAscend(members: seq<Member>, i: nat, j: nat)
    requires WellTyped(Obj(members)) && i < j < |members|
    ensures Canon(Obj(members)).Obj? && |Canon(Obj(members)).members| == |members|
    ensures var a, b := Canon(Obj(members)).members[i].key, Canon(Obj(members)).members[j].key;
            a.Name? && b.Name? && exists k :: DifferAt(a.text, b.text, k)
  {
    CanonMembersDistinct(members);
    var sorted := Sort(CanonMembers(members));
    assert Less(sorted[i].key.text, sorted[j].key.text);
    LessExactly(sorted[i].key.text, sorted[j].key.text);
  }

  function Pow10(n: nat): nat { if n == 0 then 1 else 10 * Pow10(n - 1) }

  lemma {:induction false} DigitCount(n: nat, k: nat)
    requires k > 0
    ensures |Digits(n)| <= k <==> n < Pow10(k)
    decreases k
  {
    if k == 1 {
      assert Pow10(1) == 10 * Pow10(0);
    } else {
      assert Pow10(k - 1) >= 10 by { PowIsTen(k - 1); }
      if n >= 10 {
        DigitCount(n / 10, k - 1);
      }
    }
  }

  lemma {:induction false} PowIsTen(k: nat)
    requires k > 0
    ensures Pow10(k) >= 10
  {
    if k > 1 {
      PowIsTen(k - 1);
    }
  }

  /** No integer in the value reaches the bound or its negative. */
  predicate IntegersBelow(v: Value, bound: int) {
    match v
    case Int(n) => -bound < n < bound
    case Arr(items) => forall i | 0 <= i < |items| :: IntegersBelow(items[i], bound)
    case Obj(members) => forall i | 0 <= i < |members| :: IntegersBelow(members[i].value, bound)
    case _ => true
  }

  lemma {:induction false} WritableExactly(v: Value)
    ensures Writable(v) <==> IntegersBelow(v, Pow10(4_300))
    decreases v
  {
    hide Pow10, Digits;
    match v
    case Int(n) => DigitCount(if n < 0 then -n else n, 4_300);
    case Arr(items) =>
      forall i | 0 <= i < |items| ensures Writable(items[i]) <==> IntegersBelow(items[i], Pow10(4_300)) {
        WritableExactly(items[i]);
      }
    case Obj(members) =>
      forall i | 0 <= i < |members| ensures Writable(members[i].value) <==> IntegersBelow(members[i].value, Pow10(4_300)) {
        WritableExactly(members[i].value);
      }
    case _ =>
  }

  /** A value has canonical bytes if and only if it is a JSON value and no integer in it has more than 4300 digits. */
  lemma EncodesExactly(v: Value)
    ensures CanonicalJsonBytes(v).Some? <==> WellTyped(v) && IntegersBelow(v, Pow10(4_300))
  {
    WritableExactly(v);
  }

  /** JSON lines are written if and only if there is a record, and every record is an object that has canonical bytes. */
  lemma {:induction false} JoinsExactly(records: seq<Value>)
    ensures JoinRecords(records).Some? <==>
              forall i | 0 <= i < |records| :: records[i].Obj? && CanonicalJsonBytes(records[i]).Some?
    ensures JoinRecords(records).Some? && records != [] ==>
              JoinRecords(records).value != [] && JoinRecords(records).value[|JoinRecords(records).value|-1] == 10
  {
    if records != [] {
      JoinsExactly(records[1..]);
      assert forall i | 0 < i < |records| :: records[i] == records[1..][i - 1];
    }
  }

  lemma JsonlAcceptsExactly(records: seq<Value>)
    ensures CanonicalJsonlBytes(records).Some? <==>
              records != [] && forall i | 0 <= i < |records| :: records[i].Obj? && CanonicalJsonBytes(records[i]).Some?
    ensures CanonicalJsonlBytes(records).Some? ==>
              var bytes := CanonicalJsonlBytes(records).value; bytes != [] && bytes[|bytes|-1] == 10
  {
    JoinsExactly(records);
  }
}
