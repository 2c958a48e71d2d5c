/**
 The bound on request JSON, api/validation.py: the counters and early guards of the walk reject
 nothing that the limits on depth, keys and encoded size would accept.
 */
module BoundedJson {
  import opened Prelude
  import opened Utf8
  import opened Json
  import opened CanonicalJson

  const MAX_OBJECT_KEYS := 64
  const MAX_DEPTH := 4
  const MAX_SIZE := 32_768
  /** (MAX_SIZE + 1) / 2: in the densest shape each child takes two bytes. */
  const MAX_NODES := 16_384

  /** A dictionary's keys differ from one another; nothing else is known of a Python value. */
  predicate IsPython(v: Value) {
    match v
    case Arr(items) => forall i | 0 <= i < |items| :: IsPython(items[i])
    case Obj(members) => DistinctKeys(members) && forall i | 0 <= i < |members| :: IsPython(members[i].value)
    case _ => true
  }

  predicate WithinDepth(v: Value, depth: nat) {
    && depth <= MAX_DEPTH
    && match v
       case Arr(items) => forall i | 0 <= i < |items| :: WithinDepth(items[i], depth + 1)
       case Obj(members) => forall i | 0 <= i < |members| :: WithinDepth(members[i].value, depth + 1)
       case _ => true
  }

  // ---- what the walk counts ------------------------------------------------------------------------------------

  datatype Count = Count(nodes: nat, keys: nat, stringBytes: nat)

  function Plus(a: Count, b: Count): Count { Count(a.nodes + b.nodes, a.keys + b.keys, a.stringBytes + b.stringBytes) }

  const NOTHING := Count(0, 0, 0)

  predicate Fits(c: Count) { c.nodes <= MAX_NODES && c.keys <= MAX_OBJECT_KEYS && c.stringBytes <= MAX_SIZE }

  function KeyBytes(k: Key): nat { if k.Name? then ByteCount(k.text) else 0 }

  function CountOf(v: Value): (r: Count)
    ensures r.nodes > 0
    decreases v, 0
  {
    match v
    case Str(t) => Count(1, 0, ByteCount(t))
    case Arr(items) => Plus(Count(1, 0, 0), ItemsCount(items))
    case Obj(members) => Plus(Count(1, |members|, 0), MembersCount(members))
    case _ => Count(1, 0, 0)
  }

  function ItemsCount(items: seq<Value>): Count
    decreases items, |items|
  {
    if items == [] then Count(0, 0, 0) else Plus(ItemsCount(items[..|items|-1]), CountOf(items[|items|-1]))
  }

  function MemberCount(m: Member): Count
    decreases m, 1
  {
    Plus(Count(0, 0, KeyBytes(m.key)), CountOf(m.value))
  }

  function MembersCount(members: seq<Member>): Count
    decreases members, |members|
  {
    if members == [] then Count(0, 0, 0) else Plus(MembersCount(members[..|members|-1]), MemberCount(members[|members|-1]))
  }

  // ---- encoded size -------------------------------------------------------------------------------------------------

  function StringSize(t: Text): nat { ByteCount(StringText(t)) }

  /** The bytes of a value's text, whatever the order of its keys. */
  function Size(v: Value): nat
    requires WellTyped(v)
    decreases v, 0
  {
    match v
    case Arr(items) => 2 + ItemsSize(items) - (if items == [] then 0 else 1)
    case Obj(members) => 2 + MembersSize(members) - (if members == [] then 0 else 1)
    case _ => ByteCount(TextOf(v))
  }

  /** Each item and the comma after it. */
  function ItemsSize(items: seq<Value>): (r: nat)
    requires forall i | 0 <= i < |items| :: WellTyped(items[i])
    ensures items != [] ==> r > 0
    decreases items, |items|
  {
    if items == [] then 0 else Size(items[0]) + 1 + ItemsSize(items[1..])
  }

  function MemberSize(m: Member): nat
    requires MemberOk(m)
    decreases m, 1
  {
    StringSize(m.key.text) + 1 + Size(m.value)
  }

  function MembersSize(members: seq<Member>): (r: nat)
    requires forall i | 0 <= i < |members| :: MemberOk(members[i])
    ensures members != [] ==> r > 0
    decreases members, |members|
  {
    if members == [] then 0 else MemberSize(members[0]) + 1 + MembersSize(members[1..])
  }

  lemma BytesOfOne(c: Scalar)
    ensures ByteCount([c]) == ScalarBytes(c)
  {
    assert [c][1..] == [];
  }

  lemma {:induction false} SizeIsBytes(v: Value)
    requires WellTyped(v)
    ensures ByteCount(TextOf(v)) == Size(v)
    decreases v, 0
  {
    match v
    case Arr(items) =>
      ItemsSizeIsBytes(items);
      BracketBytes(OPEN_BRACKET, ItemsText(items), CLOSE_BRACKET);
    case Obj(members) =>
      MembersSizeIsBytes(members);
      BracketBytes(OPEN_BRACE, MembersText(members), CLOSE_BRACE);
    case _ =>
  }

  lemma {:induction false} BracketBytes(open: Scalar, body: Text, close: Scalar)
    requires open < 0x80 && close < 0x80
    ensures ByteCount([open] + body + [close]) == ByteCount(body) + 2
  {
    ByteCountAppend([open] + body, [close]);
    ByteCountAppend([open], body);
    BytesOfOne(open);
    BytesOfOne(close);
  }

  lemma {:induction false} JoinBytes(a: Text, mark: Scalar, b: Text)
    requires mark < 0x80
    ensures ByteCount(a + [mark] + b) == ByteCount(a) + 1 + ByteCount(b)
  {
    ByteCountAppend(a + [mark], b);
    ByteCountAppend(a, [mark]);
    BytesOfOne(mark);
  }

  lemma {:induction false} ItemsSizeIsBytes(items: seq<Value>)
    requires forall i | 0 <= i < |items| :: WellTyped(items[i])
    ensures ByteCount(ItemsText(items)) == ItemsSize(items) - (if items == [] then 0 else 1)
    decreases items, |items|
  {
    if items != [] {
      SizeIsBytes(items[0]);
      ItemsSizeIsBytes(items[1..]);
      if |items| > 1 {
        JoinBytes(TextOf(items[0]), COMMA, ItemsText(items[1..]));
      }
    }
  }

  lemma {:induction false} MemberSizeIsBytes(m: Member)
    requires MemberOk(m)
    ensures ByteCount(MemberText(m)) == MemberSize(m)
    decreases m, 1
  {
    SizeIsBytes(m.value);
    JoinBytes(StringText(m.key.text), COLON, TextOf(m.value));
  }

  lemma {:induction false} MembersSizeIsBytes(members: seq<Member>)
    requires forall i | 0 <= i < |members| :: MemberOk(members[i])
    ensures ByteCount(MembersText(members)) == MembersSize(members) - (if members == [] then 0 else 1)
    decreases members, |members|
  {
    if members != [] {
      MemberSizeIsBytes(members[0]);
      MembersSizeIsBytes(members[1..]);
      if |members| > 1 {
        JoinBytes(MemberText(members[0]), COMMA, MembersText(members[1..]));
      }
    }
  }

  // ---- sorting does not change the size ---------------------------------------------------------------------------------

  lemma {:induction false} InsertSize(m: Member, sorted: seq<Member>)
    requires MemberOk(m) && Named(sorted) && forall i | 0 <= i < |sorted| :: MemberOk(sorted[i])
    ensures forall i | 0 <= i < |Insert(m, sorted)| :: MemberOk(Insert(m, sorted)[i])
    ensures MembersSize(Insert(m, sorted)) == MembersSize(sorted) + MemberSize(m) + 1
  {
    if sorted == [] {
    } else if Less(m.key.text, sorted[0].key.text) {
      assert ([m] + sorted)[1..] == sorted;
    } else {
      InsertSize(m, sorted[1..]);
      assert Insert(m, sorted)[1..] == Insert(m, sorted[1..]);
    }
  }

  lemma {:induction false} SortSize(members: seq<Member>)
    requires Named(members) && forall i | 0 <= i < |members| :: MemberOk(members[i])
    ensures forall i | 0 <= i < |Sort(members)| :: MemberOk(Sort(members)[i])
    ensures MembersSize(Sort(members)) == MembersSize(members)
  {
    if members != [] {
      SortSize(members[1..]);
      InsertSize(members[0], Sort(members[1..]));
    }
  }

  lemma {:induction false} CanonSize(v: Value)
    requires WellTyped(v)
    ensures WellTyped(Canon(v)) && Size(Canon(v)) == Size(v)
    decreases v, 0
  {
    CanonIsWellTyped(v);
    match v
    case Arr(items) => CanonItemsSize(items);
    case Obj(members) =>
      CanonMembersSize(members);
      SortSize(CanonMembers(members));
    case _ =>
  }

  lemma {:induction false} CanonItemsSize(items: seq<Value>)
    requires forall i | 0 <= i < |items| :: WellTyped(items[i])
    ensures forall i | 0 <= i < |items| :: WellTyped(CanonItems(items)[i])
    ensures ItemsSize(CanonItems(items)) == ItemsSize(items)
    decreases items, |items|
  {
    if items != [] {
      CanonSize(items[0]);
      CanonItemsSize(items[1..]);
      assert CanonItems(items)[1..] == CanonItems(items[1..]);
    }
  }

  lemma {:induction false} CanonMemberSize(m: Member)
    requires MemberOk(m)
    ensures MemberOk(CanonMember(m)) && MemberSize(CanonMember(m)) == MemberSize(m)
    decreases m, 1
  {
    CanonSize(m.value);
  }

  lemma {:induction false} CanonMembersSize(members: seq<Member>)
    requires forall i | 0 <= i < |members| :: MemberOk(members[i])
    ensures forall i | 0 <= i < |members| :: MemberOk(CanonMembers(members)[i])
    ensures MembersSize(CanonMembers(members)) == MembersSize(members)
    decreases members, |members|
  {
    if members != [] {
      CanonMemberSize(members[0]);
      CanonMembersSize(members[1..]);
      assert CanonMembers(members)[1..] == CanonMembers(members[1..]);
    }
  }

  // ---- the size bounds the counters ---------------------------------------------------------------------------------------

  lemma {:induction false} BytesAreMore(t: Text)
    ensures |t| <= ByteCount(t)
  {
    if t != [] {
      BytesAreMore(t[1..]);
    }
  }

  lemma {:induction false} EscapedIsLonger(t: Text)
    ensures ByteCount(t) <= ByteCount(Escaped(t))
  {
    if t != [] {
      EscapedIsLonger(t[1..]);
      ByteCountAppend(Escape(t[0]), Escaped(t[1..]));
      if t[0] >= 32 && t[0] != QUOTE && t[0] != BACKSLASH {
        BytesOfOne(t[0]);
      } else {
        BytesAreMore(Escape(t[0]));
      }
    }
  }

  lemma StringSizeBounds(t: Text)
    ensures ByteCount(t) + 2 <= StringSize(t)
  {
    EscapedIsLonger(t);
    BracketBytes(QUOTE, Escaped(t), QUOTE);
  }

  /** Each node takes two bytes, but for one, and the strings fit inside. */
  predicate Bounds(size: nat, c: Count) { 2 * c.nodes <= size + 1 && c.stringBytes <= size }

  lemma {:induction false} SizeBoundsCount(v: Value)
    requires WellTyped(v)
    ensures Bounds(Size(v), CountOf(v))
    decreases v, 0
  {
    if v.Str? {
      StringSizeBounds(v.text);
    } else if v.Arr? {
      ItemsBound(v.items);
    } else if v.Obj? {
      MembersBound(v.members);
    } else {
      TextStarts(v);
      BytesAreMore(TextOf(v));
    }
  }

  lemma {:induction false} ItemsSizeLast(items: seq<Value>)
    requires items != [] && forall i | 0 <= i < |items| :: WellTyped(items[i])
    ensures ItemsSize(items) == ItemsSize(items[..|items|-1]) + Size(items[|items|-1]) + 1
  {
    if |items| == 1 {
      assert items[..0] == [];
    } else {
      ItemsSizeLast(items[1..]);
      assert items[1..][..|items|-2] == items[..|items|-1][1..];
    }
  }

  lemma {:induction false} MembersSizeLast(members: seq<Member>)
    requires members != [] && forall i | 0 <= i < |members| :: MemberOk(members[i])
    ensures MembersSize(members) == MembersSize(members[..|members|-1]) + MemberSize(members[|members|-1]) + 1
  {
    if |members| == 1 {
      assert members[..0] == [];
    } else {
      MembersSizeLast(members[1..]);
      assert members[1..][..|members|-2] == members[..|members|-1][1..];
    }
  }

  lemma {:induction false} ItemsBound(items: seq<Value>)
    requires forall i | 0 <= i < |items| :: WellTyped(items[i])
    ensures 2 * ItemsCount(items).nodes <= ItemsSize(items)
    ensures ItemsCount(items).stringBytes + |items| <= ItemsSize(items)
    decreases items, |items|
  {
    if items != [] {
      ItemsBound(items[..|items|-1]);
      SizeBoundsCount(items[|items|-1]);
      ItemsSizeLast(items);
    }
  }

  lemma {:induction false} MemberBound(m: Member)
    requires MemberOk(m)
    ensures 2 * MemberCount(m).nodes <= MemberSize(m) && MemberCount(m).stringBytes <= MemberSize(m)
    decreases m, 1
  {
    StringSizeBounds(m.key.text);
    SizeBoundsCount(m.value);
  }

  lemma {:induction false} MembersBound(members: seq<Member>)
    requires forall i | 0 <= i < |members| :: MemberOk(members[i])
    ensures 2 * MembersCount(members).nodes <= MembersSize(members)
    ensures MembersCount(members).stringBytes + |members| <= MembersSize(members)
    decreases members, |members|
  {
    if members != [] {
      MembersBound(members[..|members|-1]);
      MemberBound(members[|members|-1]);
      MembersSizeLast(members);
    }
  }

  // ---- what is accepted -------------------------------------------------------------------------------------------------

  /** The limits, with no counter and no order: type, depth, keys, integers that can be written, and encoded size. */
  predicate Bounded(v: Value) {
    && WellTyped(v) && WithinDepth(v, 0) && CountOf(v).keys <= MAX_OBJECT_KEYS
    && CanonicalJsonBytes(v).Some? && |CanonicalJsonBytes(v).value| <= MAX_SIZE
  }

  /** A value whose encoding is small enough passes every node and string guard. */
  lemma {:induction false} GuardsRejectNothing(v: Value)
    requires WellTyped(v) && Writable(v) && |CanonicalJsonBytes(v).value| <= MAX_SIZE
    ensures CountOf(v).nodes <= MAX_NODES && CountOf(v).stringBytes <= MAX_SIZE
  {
    CanonSize(v);
    SizeIsBytes(Canon(v));
    ByteCountIsLength(TextOf(Canon(v)));
    SizeBoundsCount(v);
  }

  // ---- the walk ------------------------------------------------------------------------------------------------------------

  predicate Leq(a: Count, b: Count) { a.nodes <= b.nodes && a.keys <= b.keys && a.stringBytes <= b.stringBytes }

  lemma {:induction false} ItemsPrefix(items: seq<Value>, i: nat)
    requires i <= |items|
    ensures Leq(ItemsCount(items[..i]), ItemsCount(items))
    decreases |items|
  {
    if i == |items| {
      assert items[..i] == items;
    } else {
      ItemsPrefix(items[..|items|-1], i);
      assert items[..|items|-1][..i] == items[..i];
    }
  }

  lemma {:induction false} EachItemIsANode(items: seq<Value>)
    ensures ItemsCount(items).nodes >= |items|
  {
    if items != [] {
      EachItemIsANode(items[..|items|-1]);
    }
  }

  lemma {:induction false} MembersPrefix(members: seq<Member>, i: nat)
    requires i <= |members|
    ensures Leq(MembersCount(members[..i]), MembersCount(members))
    decreases |members|
  {
    if i == |members| {
      assert members[..i] == members;
    } else {
      MembersPrefix(members[..|members|-1], i);
      assert members[..|members|-1][..i] == members[..i];
    }
  }

  lemma {:induction false} EachMemberIsANode(members: seq<Member>)
    ensures MembersCount(members).nodes >= |members|
  {
    if members != [] {
      EachMemberIsANode(members[..|members|-1]);
    }
  }

  /** The walk's view of a value's type and depth. */
  predicate Shaped(v: Value, depth: nat)
    decreases v, 0
  {
    && depth <= MAX_DEPTH
    && match v
       case Float(token) => IsFloatToken(token)
       case Arr(items) => forall i | 0 <= i < |items| :: Shaped(items[i], depth + 1)
       case Obj(members) => DistinctKeys(members) && forall i | 0 <= i < |members| :: MemberShaped(members[i], depth + 1)
       case Foreign => false
       case _ => true
  }

  predicate MemberShaped(m: Member, depth: nat)
    decreases m, 1
  {
    m.key.Name? && Shaped(m.value, depth)
  }

  lemma {:induction false} ShapedMeans(v: Value, depth: nat)
    ensures Shaped(v, depth) <==> WellTyped(v) && WithinDepth(v, depth)
    decreases v
  {
    match v
    case Arr(items) =>
      forall i | 0 <= i < |items|
        ensures Shaped(items[i], depth + 1) <==> WellTyped(items[i]) && WithinDepth(items[i], depth + 1)
      {
        ShapedMeans(items[i], depth + 1);
      }
    case Obj(members) =>
      forall i | 0 <= i < |members|
        ensures Shaped(members[i].value, depth + 1) <==> WellTyped(members[i].value) && WithinDepth(members[i].value, depth + 1)
      {
        ShapedMeans(members[i].value, depth + 1);
      }
    case _ =>
  }

  /** What the walk of a list has to establish. */
  predicate ItemsPass(items: seq<Value>, depth: nat, before: Count) {
    (forall j | 0 <= j < |items| :: Shaped(items[j], depth)) && Fits(Plus(before, ItemsCount(items)))
  }

  predicate MembersPass(members: seq<Member>, depth: nat, before: Count) {
    (forall j | 0 <= j < |members| :: MemberShaped(members[j], depth)) && Fits(Plus(before, MembersCount(members)))
  }

  lemma PlusAssociates(a: Count, b: Count, c: Count)
    ensures Plus(Plus(a, b), c) == Plus(a, Plus(b, c))
  {}

  lemma LessFits(a: Count, b: Count, c: Count)
    requires Leq(b, c) && Fits(Plus(a, c))
    ensures Fits(Plus(a, b))
  {}

  lemma {:induction false} ItemsCountTake(items: seq<Value>, i: nat)
    requires i < |items|
    ensures ItemsCount(items[..i+1]) == Plus(ItemsCount(items[..i]), CountOf(items[i]))
  {
    var taken := items[..i+1];
    assert taken[..|taken|-1] == items[..i];
  }

  lemma {:induction false} MembersCountTake(members: seq<Member>, i: nat)
    requires i < |members|
    ensures MembersCount(members[..i+1]) == Plus(MembersCount(members[..i]), MemberCount(members[i]))
  {
    var taken := members[..i+1];
    assert taken[..|taken|-1] == members[..i];
  }

  lemma {:induction false} NextItemCount(items: seq<Value>, i: nat, before: Count)
    requires i < |items|
    ensures Plus(Plus(before, ItemsCount(items[..i])), CountOf(items[i])) == Plus(before, ItemsCount(items[..i+1]))
    ensures Fits(Plus(before, ItemsCount(items))) ==> Fits(Plus(before, ItemsCount(items[..i+1])))
  {
    ItemsCountTake(items, i);
    PlusAssociates(before, ItemsCount(items[..i]), CountOf(items[i]));
    ItemsPrefix(items, i + 1);
    if Fits(Plus(before, ItemsCount(items))) {
      LessFits(before, ItemsCount(items[..i+1]), ItemsCount(items));
    }
  }

  lemma {:induction false} NextMemberCount(members: seq<Member>, i: nat, before: Count)
    requires i < |members|
    ensures Plus(Plus(before, MembersCount(members[..i])), MemberCount(members[i])) == Plus(before, MembersCount(members[..i+1]))
    ensures Fits(Plus(before, MembersCount(members))) ==> Fits(Plus(before, MembersCount(members[..i+1])))
  {
    MembersCountTake(members, i);
    PlusAssociates(before, MembersCount(members[..i]), MemberCount(members[i]));
    MembersPrefix(members, i + 1);
    if Fits(Plus(before, MembersCount(members))) {
      LessFits(before, MembersCount(members[..i+1]), MembersCount(members));
    }
  }

  /** One item more: either it goes wrong, and so does the list, or the list is right so far. */
  lemma {:induction false} NextItem(items: seq<Value>, i: nat, depth: nat, before: Count)
    requires i < |items| && ItemsPass(items[..i], depth, before)
    ensures Shaped(items[i], depth) && Fits(Plus(before, ItemsCount(items[..i+1]))) ==> ItemsPass(items[..i+1], depth, before)
    ensures ItemsPass(items, depth, before) ==> Shaped(items[i], depth)
  {
    var taken := items[..i+1];
    forall j | 0 <= j < |taken| && Shaped(items[i], depth) ensures Shaped(taken[j], depth) {
      assert j < i ==> taken[j] == items[..i][j];
    }
  }

  lemma {:induction false} NextMember(members: seq<Member>, i: nat, depth: nat, before: Count)
    requires i < |members| && MembersPass(members[..i], depth, before)
    ensures MemberShaped(members[i], depth) && Fits(Plus(before, MembersCount(members[..i+1]))) ==>
              MembersPass(members[..i+1], depth, before)
    ensures MembersPass(members, depth, before) ==> MemberShaped(members[i], depth)
  {
    var taken := members[..i+1];
    forall j | 0 <= j < |taken| && MemberShaped(members[i], depth) ensures MemberShaped(taken[j], depth) {
      assert j < i ==> taken[j] == members[..i][j];
    }
  }

  /** No item yet; a list longer than the nodes left cannot pass. */
  lemma {:induction false} NoItemYet(items: seq<Value>, depth: nat, before: Count)
    ensures Plus(before, ItemsCount(items[..0])) == before
    ensures Fits(before) ==> ItemsPass(items[..0], depth, before)
    ensures before.nodes + |items| > MAX_NODES ==> !ItemsPass(items, depth, before)
  {
    EachItemIsANode(items);
  }

  lemma {:induction false} NoMemberYet(members: seq<Member>, depth: nat, before: Count)
    ensures Plus(before, MembersCount(members[..0])) == before
    ensures Fits(before) ==> MembersPass(members[..0], depth, before)
    ensures before.nodes + |members| > MAX_NODES || before.keys > MAX_OBJECT_KEYS ==> !MembersPass(members, depth, before)
  {
    EachMemberIsANode(members);
  }

  lemma {:induction false} MemberSplits(m: Member, depth: nat, before: Count)
    requires m.key.Name?
    ensures Plus(Plus(before, Count(0, 0, ByteCount(m.key.text))), CountOf(m.value)) == Plus(before, MemberCount(m))
    ensures Fits(Plus(before, MemberCount(m))) ==> before.stringBytes + ByteCount(m.key.text) <= MAX_SIZE
    ensures MemberShaped(m, depth) <==> Shaped(m.value, depth)
  {
    PlusAssociates(before, Count(0, 0, ByteCount(m.key.text)), CountOf(m.value));
    StringsFit(before, Count(0, 0, ByteCount(m.key.text)), CountOf(m.value));
  }

  lemma StringsFit(a: Count, b: Count, c: Count)
    ensures Fits(Plus(a, Plus(b, c))) ==> a.stringBytes + b.stringBytes <= MAX_SIZE
  {}

  lemma {:induction false} ArrayPasses(items: seq<Value>, depth: nat, before: Count)
    requires depth <= MAX_DEPTH
    ensures Plus(Plus(before, Count(1, 0, 0)), ItemsCount(items)) == Plus(before, CountOf(Arr(items)))
    ensures ItemsPass(items, depth + 1, Plus(before, Count(1, 0, 0))) ==>
              Shaped(Arr(items), depth) && Fits(Plus(before, CountOf(Arr(items))))
    ensures Shaped(Arr(items), depth) && Fits(Plus(before, CountOf(Arr(items)))) ==>
              ItemsPass(items, depth + 1, Plus(before, Count(1, 0, 0)))
  {}

  lemma {:induction false} ObjectPasses(members: seq<Member>, depth: nat, before: Count)
    requires depth <= MAX_DEPTH && DistinctKeys(members)
    ensures Plus(Plus(before, Count(1, |members|, 0)), MembersCount(members)) == Plus(before, CountOf(Obj(members)))
    ensures MembersPass(members, depth + 1, Plus(before, Count(1, |members|, 0))) ==>
              Shaped(Obj(members), depth) && Fits(Plus(before, CountOf(Obj(members))))
    ensures Shaped(Obj(members), depth) && Fits(Plus(before, CountOf(Obj(members)))) ==>
              MembersPass(members, depth + 1, Plus(before, Count(1, |members|, 0)))
  {}

  class Walk {
    var nodeCount: nat
    var objectKeys: nat
    var stringBytes: nat

    ghost function Now(): Count
      reads this
    {
      Count(nodeCount, objectKeys, stringBytes)
    }

    constructor ()
      ensures Now() == NOTHING
    {
      nodeCount, objectKeys, stringBytes := 0, 0, 0;
    }

    method CountStringBytes(text: Text) returns (ok: bool)
      requires stringBytes <= MAX_SIZE
      modifies this
      ensures ok <==> old(stringBytes) + ByteCount(text) <= MAX_SIZE
      ensures ok ==> Now() == Plus(old(Now()), Count(0, 0, ByteCount(text)))
    {
      BytesAreMore(text);
      ByteCountIsLength(text);
      var remaining := MAX_SIZE - stringBytes;
      if |text| > remaining {
        return false;
      }
      stringBytes := stringBytes + |Encode(text)|;
      ok := stringBytes <= MAX_SIZE;
    }

    /** `walk`: it returns exactly when the node is shaped right and the counters stay within their limits. */
    method Visit(node: Value, depth: nat) returns (ok: bool)
      requires Fits(Now()) && IsPython(node)
      modifies this
      ensures Shaped(node, depth) && Fits(Plus(old(Now()), CountOf(node))) ==> ok
      ensures ok ==> Shaped(node, depth) && Fits(Now()) && Now() == Plus(old(Now()), CountOf(node))
      decreases node, 1
    {
      hide ItemsCount, MembersCount, ItemsPass, MembersPass;
      ghost var before := Now();
      nodeCount := nodeCount + 1;
      if nodeCount > MAX_NODES || depth > MAX_DEPTH {
        return false;
      }
      match node
      case Str(text) => ok := CountStringBytes(text);
      case Arr(items) =>
        ArrayPasses(items, depth, before);
        ok := VisitItems(items, depth);
      case Obj(members) =>
        ObjectPasses(members, depth, before);
        ok := VisitMembers(members, depth);
      case Foreign => ok := false;
      case Float(token) => ok := IsFloatToken(token);
      case _ => ok := true;
    }

    method VisitItem(items: seq<Value>, i: nat, depth: nat, ghost before: Count) returns (ok: bool)
      requires i < |items| && IsPython(items[i])
      requires ItemsPass(items[..i], depth + 1, before) && Now() == Plus(before, ItemsCount(items[..i]))
      modifies this
      ensures ok ==> ItemsPass(items[..i+1], depth + 1, before) && Now() == Plus(before, ItemsCount(items[..i+1]))
      ensures ItemsPass(items, depth + 1, before) ==> ok
      decreases items, 1
    {
      hide ItemsCount, CountOf, Shaped;
      NextItem(items, i, depth + 1, before);
      assert Fits(Now());
      ok := Visit(items[i], depth + 1);
      NextItemCount(items, i, before);
    }

    method VisitItems(items: seq<Value>, depth: nat) returns (ok: bool)
      requires Fits(Now()) && forall i | 0 <= i < |items| :: IsPython(items[i])
      modifies this
      ensures ItemsPass(items, depth + 1, old(Now())) ==> ok
      ensures ok ==> ItemsPass(items, depth + 1, old(Now())) && Now() == Plus(old(Now()), ItemsCount(items))
      decreases items, 2
    {
      hide CountOf, Shaped;
      ghost var before := Now();
      NoItemYet(items, depth + 1, before);
      if |items| > MAX_NODES - nodeCount {
        return false;
      }
      for i := 0 to |items|
        invariant Now() == Plus(before, ItemsCount(items[..i])) && ItemsPass(items[..i], depth + 1, before)
      {
        ok := VisitItem(items, i, depth, before);
        if !ok {
          return;
        }
      }
      assert items[..|items|] == items;
      ok := true;
    }

    method VisitMember(m: Member, depth: nat) returns (ok: bool)
      requires Fits(Now()) && IsPython(m.value)
      modifies this
      ensures MemberShaped(m, depth) && Fits(Plus(old(Now()), MemberCount(m))) ==> ok
      ensures ok ==> MemberShaped(m, depth) && Fits(Now()) && Now() == Plus(old(Now()), MemberCount(m))
      decreases m, 2
    {
      hide CountOf, Shaped, MemberCount;
      if !m.key.Name? {
        return false;
      }
      MemberSplits(m, depth, Now());
      ok := CountStringBytes(m.key.text);
      if ok {
        ok := Visit(m.value, depth);
      }
    }

    method VisitNextMember(members: seq<Member>, i: nat, depth: nat, ghost before: Count) returns (ok: bool)
      requires i < |members| && IsPython(members[i].value)
      requires MembersPass(members[..i], depth + 1, before) && Now() == Plus(before, MembersCount(members[..i]))
      modifies this
      ensures ok ==> MembersPass(members[..i+1], depth + 1, before) && Now() == Plus(before, MembersCount(members[..i+1]))
      ensures MembersPass(members, depth + 1, before) ==> ok
      decreases members, 1
    {
      hide MembersCount, MemberCount, MemberShaped;
      NextMember(members, i, depth + 1, before);
      assert Fits(Now());
      ok := VisitMember(members[i], depth + 1);
      NextMemberCount(members, i, before);
    }

    method VisitMembers(members: seq<Member>, depth: nat) returns (ok: bool)
      requires Fits(Now()) && forall i | 0 <= i < |members| :: IsPython(members[i].value)
      modifies this
      ensures MembersPass(members, depth + 1, Plus(old(Now()), Count(0, |members|, 0))) ==> ok
      ensures ok ==> MembersPass(members, depth + 1, Plus(old(Now()), Count(0, |members|, 0)))
      ensures ok ==> Now() == Plus(Plus(old(Now()), Count(0, |members|, 0)), MembersCount(members))
      decreases members, 2
    {
      hide MemberCount, MemberShaped;
      ghost var before := Plus(Now(), Count(0, |members|, 0));
      NoMemberYet(members, depth + 1, before);
      if |members| > MAX_OBJECT_KEYS - objectKeys || |members| > MAX_NODES - nodeCount {
        return false;
      }
      objectKeys := objectKeys + |members|;
      for i := 0 to |members|
        invariant Now() == Plus(before, MembersCount(members[..i])) && MembersPass(members[..i], depth + 1, before)
      {
        ok := VisitNextMember(members, i, depth, before);
        if !ok {
          return;
        }
      }
      assert members[..|members|] == members;
      ok := true;
    }
  }

  /** Sums the encoder's pieces, however it cuts them, and stops once they exceed the limit. */
  method MeasureEncoding(text: Text) returns (ok: bool)
    ensures ok <==> |Encode(text)| <= MAX_SIZE
  {
    var at, size := 0, 0;
    assert text[..0] == [];
    while at < |text|
      invariant 0 <= at <= |text| && size == |Encode(text[..at])| && size <= MAX_SIZE
    {
      var n: nat :| 1 <= n <= |text| - at;
      assert text[..at + n] == text[..at] + text[at..at + n] && text == text[..at + n] + text[at + n..];
      EncodeAppend(text[..at], text[at..at + n]);
      EncodeAppend(text[..at + n], text[at + n..]);
      size := size + |Encode(text[at..at + n])|;
      if size > MAX_SIZE {
        return false;
      }
      at := at + n;
    }
    assert text[..at] == text;
    ok := true;
  }

  lemma {:induction false} BoundedPassesWalk(v: Value)
    ensures Bounded(v) ==> Shaped(v, 0) && Fits(Plus(NOTHING, CountOf(v)))
  {
    if Bounded(v) {
      ShapedMeans(v, 0);
      GuardsRejectNothing(v);
    }
  }

  lemma {:induction false} PassedIsWellTyped(v: Value)
    requires Shaped(v, 0) && Fits(Plus(NOTHING, CountOf(v)))
    ensures WellTyped(v) && WithinDepth(v, 0) && CountOf(v).keys <= MAX_OBJECT_KEYS
  {
    hide WellTyped, Shaped, WithinDepth, CountOf;
    ShapedMeans(v, 0);
  }

  /** What the encoder writes. */
  function CanonText(v: Value): (text: Text)
    requires WellTyped(v)
    ensures WellTyped(Canon(v)) && text == TextOf(Canon(v))
  {
    CanonIsWellTyped(v);
    TextOf(Canon(v))
  }

  lemma {:induction false} PassedIsMeasured(v: Value)
    requires WellTyped(v) && WithinDepth(v, 0) && CountOf(v).keys <= MAX_OBJECT_KEYS && Writable(v)
    ensures Bounded(v) <==> |Encode(CanonText(v))| <= MAX_SIZE
  {
    hide Canon, WellTyped, WithinDepth, Writable, Encode, TextOf, CountOf;
  }

  /** `_validate_bounded_json`: false stands for the exception it raises. */
  method ValidateBoundedJson(value: Value) returns (ok: bool)
    requires IsPython(value)
    ensures ok <==> Bounded(value)
  {
    hide Canon, WellTyped, Shaped, WithinDepth, Writable, CountOf, TextOf;
    var walk := new Walk();
    assert Fits(walk.Now());
    ok := walk.Visit(value, 0);
    if !ok {
      BoundedPassesWalk(value);
      return;
    }
    PassedIsWellTyped(value);
    if !Writable(value) {
      return false;
    }
    PassedIsMeasured(value);
    ok := MeasureEncoding(CanonText(value));
  }

  // ---- the limits, without the walk ------------------------------------------------------------------------------------

  /** Some chain of so many steps from a container to one of its parts starts at the value. */
  predicate HasLevel(v: Value, steps: nat)
    decreases v
  {
    steps == 0 || match v
      case Arr(items) => exists i | 0 <= i < |items| :: HasLevel(items[i], steps - 1)
      case Obj(members) => exists i | 0 <= i < |members| :: HasLevel(members[i].value, steps - 1)
      case _ => false
  }

  lemma {:induction false} DepthMeans(v: Value, depth: nat)
    requires depth <= 5
    ensures WithinDepth(v, depth) <==> !HasLevel(v, 5 - depth)
    decreases v
  {
    if depth < 5 {
      match v
      case Arr(items) =>
        forall i | 0 <= i < |items| ensures WithinDepth(items[i], depth + 1) <==> !HasLevel(items[i], 4 - depth) {
          DepthMeans(items[i], depth + 1);
        }
      case Obj(members) =>
        forall i | 0 <= i < |members| ensures WithinDepth(members[i].value, depth + 1) <==> !HasLevel(members[i].value, 4 - depth) {
          DepthMeans(members[i].value, depth + 1);
        }
      case _ =>
    }
  }

  /** The keys of all objects in a value. */
  function KeyTotal(v: Value): nat
    decreases v, 0
  {
    match v
    case Arr(items) => KeysOfItems(items)
    case Obj(members) => |members| + KeysOfMembers(members)
    case _ => 0
  }

  function KeysOfItems(items: seq<Value>): nat
    decreases items, |items|
  {
    if items == [] then 0 else KeysOfItems(items[..|items|-1]) + KeyTotal(items[|items|-1])
  }

  function KeysOfMember(m: Member): nat
    decreases m, 1
  {
    KeyTotal(m.value)
  }

  function KeysOfMembers(members: seq<Member>): nat
    decreases members, |members|
  {
    if members == [] then 0 else KeysOfMembers(members[..|members|-1]) + KeysOfMember(members[|members|-1])
  }

  lemma {:induction false} KeysAreCounted(v: Value)
    ensures CountOf(v).keys == KeyTotal(v)
    decreases v, 0
  {
    match v
    case Arr(items) => ItemKeysAreCounted(items);
    case Obj(members) => MemberKeysAreCounted(members);
    case _ =>
  }

  lemma {:induction false} ItemKeysAreCounted(items: seq<Value>)
    ensures ItemsCount(items).keys == KeysOfItems(items)
    decreases items, |items|
  {
    hide CountOf, KeyTotal;
    if items != [] {
      ItemKeysAreCounted(items[..|items|-1]);
      KeysAreCounted(items[|items|-1]);
    }
  }

  lemma {:induction false} MemberKeysAreCounted(members: seq<Member>)
    ensures MembersCount(members).keys == KeysOfMembers(members)
    decreases members, |members|
  {
    hide CountOf, KeyTotal, MemberCount, KeysOfMember;
    if members != [] {
      MemberKeysAreCounted(members[..|members|-1]);
      KeyOfMemberIsCounted(members[|members|-1]);
    }
  }

  lemma {:induction false} KeyOfMemberIsCounted(m: Member)
    ensures MemberCount(m).keys == KeysOfMember(m)
    decreases m, 1
  {
    KeysAreCounted(m.value);
  }

  /**
   What is accepted: a value that has canonical bytes, at most 32768 of them, no more than 64 keys in all its objects, and
   nothing more than four containers deep.
   */
  lemma BoundedExactly(v: Value)
    ensures Bounded(v) <==>
              && CanonicalJsonBytes(v).Some? && |CanonicalJsonBytes(v).value| <= 32_768
              && KeyTotal(v) <= 64 && !HasLevel(v, 5)
  {
    KeysAreCounted(v);
    DepthMeans(v, 0);
    hide CountOf, KeyTotal, WithinDepth, HasLevel, Canon, TextOf;
  }
}
