/** Metadata validation: an explicit stack that decides a recursive limit on the submitted value. */
module MetadataLimits {

  const MAX_DEPTH := 6
  const MAX_KEYS := 128
  const MAX_NODES := 2048
  const MAX_STRING := 4096

  datatype Key = TextKey(text: string) | OtherKey

  /**
   * A submitted value; numbers and booleans need no distinction, `Foreign` is any other object.
   * A mapping lists its keys and, in the same order, their values.
   */
  datatype Value =
    | Null
    | Scalar
    | Text(text: string)
    | Mapping(keys: seq<Key>, children: seq<Value>)
    | List(children: seq<Value>)
    | Foreign

  datatype Verdict = Accepted | TooManyNodes | TooDeep | LongString | TooManyKeys | KeyNotText | NotJson

  function Children(v: Value): seq<Value> {
    if v.Mapping? || v.List? then v.children else []
  }

  // ---------------------------------------------------------------- the recursive limit

  function Nodes(v: Value): nat
    decreases v, 0
  {
    1 + if v.Mapping? || v.List? then NodesOf(v.children) else 0
  }

  function NodesOf(vs: seq<Value>): nat
    decreases vs
  {
    if vs == [] then 0 else Nodes(vs[0]) + NodesOf(vs[1..])
  }

  /** No node lies more than `room` levels below this value. */
  predicate Shallow(v: Value, room: int)
    decreases v
  {
    room >= 0 && ((v.Mapping? || v.List?) ==> forall c | c in v.children :: Shallow(c, room - 1))
  }

  /** The checks that look at one value and its keys, without its children. */
  predicate GoodNode(v: Value) {
    match v
    case Text(text) => |text| <= MAX_STRING
    case Mapping(keys, _) => |keys| <= MAX_KEYS && forall k | k in keys :: k.TextKey? && |k.text| <= MAX_STRING
    case Foreign => false
    case _ => true
  }

  /** Every value in the tree passes the local checks. */
  predicate Good(v: Value)
    decreases v
  {
    GoodNode(v) && ((v.Mapping? || v.List?) ==> forall c | c in v.children :: Good(c))
  }

  predicate WithinLimits(v: Value) {
    Nodes(v) <= MAX_NODES && Shallow(v, MAX_DEPTH) && Good(v)
  }

  predicate GoodKey(k: Key) {
    k.TextKey? && |k.text| <= MAX_STRING
  }

  /** What each local error complains of. */
  predicate Breaks(v: Value, r: Verdict) {
    match r
    case LongString =>
      || (v.Text? && |v.text| > MAX_STRING)
      || (v.Mapping? && exists k | k in v.keys :: k.TextKey? && |k.text| > MAX_STRING)
    case TooManyKeys => v.Mapping? && |v.keys| > MAX_KEYS
    case KeyNotText => v.Mapping? && exists k | k in v.keys :: k.OtherKey?
    case NotJson => v.Foreign?
    case _ => false
  }

  /** Some value in the tree gives this complaint. */
  predicate SomewhereBreaks(v: Value, r: Verdict)
    decreases v
  {
    Breaks(v, r) || ((v.Mapping? || v.List?) && exists c | c in v.children :: SomewhereBreaks(c, r))
  }

  lemma GoodNodeMeans(v: Value)
    ensures GoodNode(v) <==> forall r :: !Breaks(v, r)
  {
    if forall r :: !Breaks(v, r) {
      assert !Breaks(v, LongString) && !Breaks(v, TooManyKeys) && !Breaks(v, KeyNotText) && !Breaks(v, NotJson);
    }
  }

  lemma {:induction false} GoodBreaksNowhere(v: Value, r: Verdict)
    requires Good(v)
    ensures !SomewhereBreaks(v, r)
    decreases v
  {
    GoodNodeMeans(v);
    if v.Mapping? || v.List? {
      forall c | c in v.children ensures !SomewhereBreaks(c, r) {
        GoodBreaksNowhere(c, r);
      }
    }
  }

  /** A tree that is not good gives a complaint. */
  lemma {:induction false} Complaint(v: Value) returns (r: Verdict)
    requires !Good(v)
    ensures SomewhereBreaks(v, r)
    decreases v
  {
    GoodNodeMeans(v);
    if !GoodNode(v) {
      r :| Breaks(v, r);
    } else {
      var c :| c in v.children && !Good(c);
      r := Complaint(c);
    }
  }

  /** The local checks pass throughout the tree if and only if no complaint can be made anywhere. */
  lemma GoodMeans(v: Value)
    ensures Good(v) <==> !exists r :: SomewhereBreaks(v, r)
  {
    if Good(v) {
      forall r ensures !SomewhereBreaks(v, r) {
        GoodBreaksNowhere(v, r);
      }
    } else {
      var r := Complaint(v);
      assert SomewhereBreaks(v, r);
    }
  }

  // ---------------------------------------------------------------- the loop

  datatype Item = Item(value: Value, depth: nat)

  function StackNodes(stack: seq<Item>): nat {
    if stack == [] then 0 else StackNodes(stack[..|stack| - 1]) + Nodes(stack[|stack| - 1].value)
  }

  predicate ItemFine(item: Item) {
    Shallow(item.value, MAX_DEPTH - item.depth) && Good(item.value)
  }

  predicate StackFine(stack: seq<Item>) {
    forall i | 0 <= i < |stack| :: ItemFine(stack[i])
  }

  function Deepen(children: seq<Value>, depth: nat): (items: seq<Item>)
    ensures |items| == |children|
    ensures forall i | 0 <= i < |children| :: items[i] == Item(children[i], depth)
  {
    seq(|children|, i requires 0 <= i < |children| => Item(children[i], depth))
  }

  lemma {:induction false} NodesOfAppend(vs: seq<Value>, v: Value)
    ensures NodesOf(vs + [v]) == NodesOf(vs) + Nodes(v)
  {
    if vs == [] {
      assert vs + [v] == [v];
    } else {
      assert (vs + [v])[1..] == vs[1..] + [v];
      NodesOfAppend(vs[1..], v);
    }
  }

  lemma {:induction false} StackNodesExtend(stack: seq<Item>, children: seq<Value>, depth: nat)
    ensures StackNodes(stack + Deepen(children, depth)) == StackNodes(stack) + NodesOf(children)
    decreases |children|
  {
    if children == [] {
      assert stack + Deepen(children, depth) == stack;
    } else {
      var n := |children| - 1;
      var front, last := children[..n], children[n];
      var all := stack + Deepen(children, depth);
      assert all[..|all| - 1] == stack + Deepen(front, depth);
      assert all[|all| - 1] == Item(last, depth);
      StackNodesExtend(stack, front, depth);
      NodesOfAppend(front, last);
      assert front + [last] == children;
    }
  }

  lemma StackFineSplit(stack: seq<Item>, top: Item)
    ensures StackFine(stack + [top]) <==> StackFine(stack) && ItemFine(top)
  {
    var all := stack + [top];
    assert all[|stack|] == top;
    if StackFine(all) {
      forall i | 0 <= i < |stack| ensures ItemFine(stack[i]) {
        assert ItemFine(all[i]);
      }
    }
  }

  lemma StackFineExtend(stack: seq<Item>, children: seq<Value>, depth: nat)
    ensures StackFine(stack + Deepen(children, depth)) <==>
              StackFine(stack) && forall c | c in children :: ItemFine(Item(c, depth))
  {
    var all, items := stack + Deepen(children, depth), Deepen(children, depth);
    if StackFine(all) {
      forall i | 0 <= i < |stack| ensures ItemFine(stack[i]) {
        assert ItemFine(all[i]);
      }
      forall c | c in children ensures ItemFine(Item(c, depth)) {
        var i :| 0 <= i < |children| && children[i] == c;
        assert ItemFine(all[|stack| + i]);
      }
    }
    if StackFine(stack) && forall c | c in children :: ItemFine(Item(c, depth)) {
      forall i | 0 <= i < |all| ensures ItemFine(all[i]) {
        if i >= |stack| {
          assert all[i] == Item(children[i - |stack|], depth);
        }
      }
    }
  }

  /** One popped container: it is fine exactly when it is itself good, not too deep, and its children are fine. */
  lemma ItemUnfold(item: Item)
    ensures ItemFine(item) <==>
              && item.depth <= MAX_DEPTH && GoodNode(item.value)
              && forall c | c in Children(item.value) :: ItemFine(Item(c, item.depth + 1))
  {
    var room := MAX_DEPTH - item.depth;
    assert room - 1 == MAX_DEPTH - (item.depth + 1);
    forall c | c in Children(item.value)
      ensures Shallow(c, room - 1) && Good(c) <==> ItemFine(Item(c, item.depth + 1))
    {
    }
    if ItemFine(item) {
      forall c | c in Children(item.value) ensures ItemFine(Item(c, item.depth + 1)) {
        assert Shallow(c, room - 1) && Good(c);
      }
    }
    if item.depth <= MAX_DEPTH && GoodNode(item.value) &&
       forall c | c in Children(item.value) :: ItemFine(Item(c, item.depth + 1))
    {
      forall c | c in Children(item.value) ensures Shallow(c, room - 1) && Good(c) {
        assert ItemFine(Item(c, item.depth + 1));
      }
      var v := item.value;
      if v.Mapping? || v.List? {
        assert Children(v) == v.children;
        forall c | c in v.children ensures Shallow(c, room - 1) && Good(c) {
          assert c in Children(v);
        }
      }
      assert Shallow(v, room);
      assert Good(v);
    }
  }

  /** Truthfulness of the error: the named limit really is broken. */
  ghost predicate Truthful(r: Verdict, v: Value) {
    match r
    case Accepted => WithinLimits(v)
    case TooManyNodes => Nodes(v) > MAX_NODES
    case TooDeep => !Shallow(v, MAX_DEPTH)
    case _ => SomewhereBreaks(v, r)
  }

  /** A part of the value breaks no limit the value itself keeps. */
  ghost predicate PartOf(item: Item, v: Value) {
    && (Shallow(v, MAX_DEPTH) ==> Shallow(item.value, MAX_DEPTH - item.depth))
    && (Good(v) ==> Good(item.value))
    && (forall r | SomewhereBreaks(item.value, r) :: SomewhereBreaks(v, r))
  }

  ghost predicate PartsOf(stack: seq<Item>, v: Value) {
    forall i | 0 <= i < |stack| :: PartOf(stack[i], v)
  }

  lemma ChildPart(item: Item, c: Value, v: Value)
    requires PartOf(item, v) && c in Children(item.value)
    ensures PartOf(Item(c, item.depth + 1), v)
  {
    assert MAX_DEPTH - item.depth - 1 == MAX_DEPTH - (item.depth + 1);
    forall r | SomewhereBreaks(c, r) ensures SomewhereBreaks(v, r) {
      assert SomewhereBreaks(item.value, r);
    }
  }

  lemma PushParts(rest: seq<Item>, top: Item, v: Value)
    requires PartsOf(rest + [top], v)
    ensures PartsOf(rest, v) && PartOf(top, v)
    ensures PartsOf(rest + Deepen(Children(top.value), top.depth + 1), v)
  {
    var all := rest + [top];
    assert all[|rest|] == top && PartOf(all[|rest|], v);
    forall i | 0 <= i < |rest| ensures PartOf(rest[i], v) {
      assert PartOf(all[i], v);
    }
    var next := rest + Deepen(Children(top.value), top.depth + 1);
    forall i | 0 <= i < |next| ensures PartOf(next[i], v) {
      if i >= |rest| {
        ChildPart(top, Children(top.value)[i - |rest|], v);
      }
    }
  }

  /** Popping a node and pushing its children takes one node off the account. */
  lemma TurnNodes(rest: seq<Item>, top: Item)
    ensures StackNodes(rest + [top]) == 1 + StackNodes(rest + Deepen(Children(top.value), top.depth + 1))
  {
    var all := rest + [top];
    assert all[..|all| - 1] == rest && all[|all| - 1] == top;
    StackNodesExtend(rest, Children(top.value), top.depth + 1);
  }

  /** A node that passes its own checks leaves the verdict to the rest; one that does not settles it. */
  lemma TurnFine(rest: seq<Item>, top: Item, v: Value)
    requires PartsOf(rest + [top], v)
    ensures top.depth <= MAX_DEPTH && GoodNode(top.value) ==>
              (StackFine(rest + [top]) <==> StackFine(rest + Deepen(Children(top.value), top.depth + 1)))
    ensures top.depth > MAX_DEPTH ==> !Shallow(v, MAX_DEPTH)
    ensures !GoodNode(top.value) ==> !Good(v)
  {
    PushParts(rest, top, v);
    StackFineSplit(rest, top);
    ItemUnfold(top);
    StackFineExtend(rest, Children(top.value), top.depth + 1);
  }

  /** The keys of one mapping, in order; children are pushed as the keys are passed. */
  method CheckKeys(keys: seq<Key>) returns (r: Verdict)
    ensures r == Accepted <==> forall k | k in keys :: GoodKey(k)
    ensures r == KeyNotText || r == LongString <==>
              exists i | 0 <= i < |keys| ::
                && (forall j | 0 <= j < i :: GoodKey(keys[j]))
                && !GoodKey(keys[i]) && (r == KeyNotText <==> keys[i].OtherKey?)
    ensures r in {Accepted, KeyNotText, LongString}
  {
    for i := 0 to |keys|
      invariant forall j | 0 <= j < i :: GoodKey(keys[j])
    {
      assert keys[i] in keys;
      if keys[i].OtherKey? {
        return KeyNotText;
      }
      if |keys[i].text| > MAX_STRING {
        return LongString;
      }
    }
    return Accepted;
  }

  /** The checks on one popped value. */
  method CheckNode(v: Value) returns (r: Verdict)
    ensures r == Accepted <==> GoodNode(v)
    ensures r != Accepted ==> Breaks(v, r)
    ensures r == TooManyKeys <==> Breaks(v, TooManyKeys)
  {
    if v.Null? || v.Scalar? {
      return Accepted;
    }
    if v.Text? {
      return if |v.text| > MAX_STRING then LongString else Accepted;
    }
    if v.Mapping? {
      if |v.keys| > MAX_KEYS {
        return TooManyKeys;
      }
      r := CheckKeys(v.keys);
      return;
    }
    if v.List? {
      return Accepted;
    }
    return NotJson;
  }

  /**
   * The traversal pops from the end of the stack. It accepts exactly the values within the recursive limit,
   * names only limits that are broken, and runs at most MAX_NODES + 1 times whatever the value's size.
   */
  method ValidateMetadata(value: Value) returns (r: Verdict, iterations: nat)
    ensures r == Accepted <==> WithinLimits(value)
    ensures Truthful(r, value)
    ensures iterations <= MAX_NODES + 1 && (r == Accepted ==> iterations == Nodes(value))
  {
    var stack := [Item(value, 0)];
    var nodes := 0;
    iterations := 0;
    StartFacts(value);
    while stack != []
      invariant nodes == iterations <= MAX_NODES
      invariant nodes + StackNodes(stack) == Nodes(value)
      invariant StackFine(stack) <==> Shallow(value, MAX_DEPTH) && Good(value)
      invariant PartsOf(stack, value)
      decreases StackNodes(stack)
    {
      var top := stack[|stack| - 1];
      var rest := stack[..|stack| - 1];
      assert stack == rest + [top];
      PushParts(rest, top, value);
      TurnNodes(rest, top);
      TurnFine(rest, top, value);
      nodes := nodes + 1;
      iterations := iterations + 1;
      if nodes > MAX_NODES {
        return TooManyNodes, iterations;
      }
      if top.depth > MAX_DEPTH {
        return TooDeep, iterations;
      }
      var local := CheckNode(top.value);
      if local != Accepted {
        assert SomewhereBreaks(top.value, local);
        return local, iterations;
      }
      stack := rest + Deepen(Children(top.value), top.depth + 1);
    }
    return Accepted, iterations;
  }

  lemma StartFacts(value: Value)
    ensures StackNodes([Item(value, 0)]) == Nodes(value)
    ensures StackFine([Item(value, 0)]) <==> Shallow(value, MAX_DEPTH) && Good(value)
    ensures PartsOf([Item(value, 0)], value)
  {
    var stack := [Item(value, 0)];
    assert stack[..0] == [];
    assert StackFine(stack) <==> ItemFine(stack[0]);
  }

  // ---------------------------------------------------------------- where the limits lie

  /** A scalar below `depth` lists. */
  function Nested(depth: nat): Value {
    if depth == 0 then Scalar else List([Nested(depth - 1)])
  }

  lemma {:induction false} NestedShape(depth: nat, room: int)
    ensures Nodes(Nested(depth)) == depth + 1 && Good(Nested(depth))
    ensures Shallow(Nested(depth), room) <==> depth <= room
  {
    if depth > 0 {
      var v, c := Nested(depth), Nested(depth - 1);
      NestedShape(depth - 1, room - 1);
      assert v.children == [c] && v.children[1..] == [];
      assert forall x | x in v.children :: x == c;
      assert c in v.children;
    }
  }

  /** `n` times null, in one list. */
  function Wide(n: nat): Value {
    List(seq(n, _ => Null))
  }

  lemma {:induction false} NullNodes(n: nat)
    ensures NodesOf(seq(n, _ => Null)) == n
  {
    if n > 0 {
      var s := seq(n, _ => Null);
      NullNodes(n - 1);
      assert s[1..] == seq(n - 1, _ => Null);
    }
  }

  /** `n` short keys with null values. */
  function Flat(n: nat, key: string): Value {
    Mapping(seq(n, _ => TextKey(key)), seq(n, _ => Null))
  }

  lemma FlatIs(n: nat, key: string)
    ensures Nodes(Flat(n, key)) == n + 1 && (n > 0 ==> Shallow(Flat(n, key), MAX_DEPTH))
    ensures n > 0 ==> (Good(Flat(n, key)) <==> n <= MAX_KEYS && |key| <= MAX_STRING)
  {
    var v := Flat(n, key);
    NullNodes(n);
    assert forall c | c in v.children :: c == Null;
    assert forall k | k in v.keys :: k == TextKey(key);
    if n > 0 {
      assert v.keys[0] == TextKey(key) && v.keys[0] in v.keys;
    }
  }

  /** Each limit is met exactly: six levels, 2048 nodes, 128 keys, 4096 characters in texts and keys. */
  lemma LimitsLieAt(n: nat, text: string)
    ensures WithinLimits(Nested(n)) <==> n <= 6
    ensures WithinLimits(Wide(n)) <==> n + 1 <= 2048
    ensures n > 0 ==> (WithinLimits(Flat(n, text)) <==> n <= 128 && |text| <= 4096)
    ensures WithinLimits(Text(text)) <==> |text| <= 4096
    ensures !WithinLimits(Foreign) && WithinLimits(Null) && WithinLimits(Scalar)
  {
    NestedShape(n, MAX_DEPTH);
    NullNodes(n);
    assert forall c | c in Wide(n).children :: c == Null;
    FlatIs(n, text);
  }

  // ---------------------------------------------------------------- sibling order does not matter

  ghost predicate AlikeEach(xs: seq<Value>, ys: seq<Value>)
    decreases xs, 0
  {
    |xs| == |ys| && forall i | 0 <= i < |xs| :: Alike(xs[i], ys[i])
  }

  /** The same value with keys and siblings in another order, at any depth. */
  ghost predicate Alike(a: Value, b: Value)
    decreases a
  {
    match a
    case Mapping(keys, children) =>
      b.Mapping? && multiset(keys) == multiset(b.keys) &&
      exists mid :: AlikeEach(children, mid) && multiset(mid) == multiset(b.children)
    case List(children) =>
      b.List? && exists mid :: AlikeEach(children, mid) && multiset(mid) == multiset(b.children)
    case _ => a == b
  }

  lemma {:induction false} NodesOfConcat(a: seq<Value>, b: seq<Value>)
    ensures NodesOf(a + b) == NodesOf(a) + NodesOf(b)
  {
    if a == [] {
      assert a + b == b;
    } else {
      assert (a + b)[0] == a[0] && (a + b)[1..] == a[1..] + b;
      NodesOfConcat(a[1..], b);
    }
  }

  lemma NodesOfAround(front: seq<Value>, v: Value, back: seq<Value>)
    ensures NodesOf(front + [v] + back) == Nodes(v) + NodesOf(front + back)
  {
    NodesOfConcat(front + [v], back);
    NodesOfAppend(front, v);
    NodesOfConcat(front, back);
  }

  lemma TakeOut(rest: seq<Value>, front: seq<Value>, v: Value, back: seq<Value>)
    requires multiset([v] + rest) == multiset(front + [v] + back)
    ensures multiset(rest) == multiset(front + back)
  {
    assert multiset([v] + rest) - multiset{v} == multiset(rest);
    assert multiset(front + [v] + back) - multiset{v} == multiset(front + back);
  }

  lemma {:induction false} NodesOfForgetsOrder(a: seq<Value>, b: seq<Value>)
    requires multiset(a) == multiset(b)
    ensures NodesOf(a) == NodesOf(b)
    decreases |a|
  {
    assert |multiset(a)| == |a| && |multiset(b)| == |b|;
    if a == [] {
      assert b == [];
    } else {
      var v, rest := a[0], a[1..];
      assert a == [v] + rest;
      assert v in multiset(b);
      var i :| 0 <= i < |b| && b[i] == v;
      var front, back := b[..i], b[i + 1..];
      assert b == front + [v] + back;
      TakeOut(rest, front, v, back);
      NodesOfForgetsOrder(rest, front + back);
      NodesOfAround(front, v, back);
      assert NodesOf(b) == Nodes(v) + NodesOf(rest);
    }
  }

  lemma SameMembers(a: seq<Value>, b: seq<Value>)
    requires multiset(a) == multiset(b)
    ensures forall v :: v in a <==> v in b
  {
    forall v ensures v in a <==> v in b {
      assert v in a <==> v in multiset(a);
    }
  }

  /** The witness of likeness, whichever kind of container it is. */
  lemma AlikeContainer(a: Value, b: Value) returns (mid: seq<Value>)
    requires Alike(a, b) && (a.Mapping? || a.List?)
    ensures b.Mapping? <==> a.Mapping?
    ensures (b.Mapping? || b.List?) && AlikeEach(a.children, mid) && multiset(mid) == multiset(b.children)
    ensures GoodNode(a) <==> GoodNode(b)
  {
    mid :| AlikeEach(a.children, mid) && multiset(mid) == multiset(b.children);
    if a.Mapping? {
      assert |multiset(a.keys)| == |a.keys| && |multiset(b.keys)| == |b.keys|;
      forall k ensures k in a.keys <==> k in b.keys {
        assert k in a.keys <==> k in multiset(a.keys);
        assert k in b.keys <==> k in multiset(b.keys);
      }
    }
  }

  lemma {:induction false} AlikeNodes(a: Value, b: Value)
    requires Alike(a, b)
    ensures Nodes(a) == Nodes(b)
    decreases a, 0
  {
    if a.Mapping? || a.List? {
      var mid := AlikeContainer(a, b);
      AlikeNodesOf(a.children, mid);
      NodesOfForgetsOrder(mid, b.children);
    }
  }

  lemma {:induction false} AlikeNodesOf(xs: seq<Value>, ys: seq<Value>)
    requires AlikeEach(xs, ys)
    ensures NodesOf(xs) == NodesOf(ys)
    decreases xs
  {
    if xs != [] {
      AlikeNodes(xs[0], ys[0]);
      assert forall i | 0 <= i < |xs[1..]| :: xs[1..][i] == xs[i + 1] && ys[1..][i] == ys[i + 1];
      AlikeNodesOf(xs[1..], ys[1..]);
    }
  }

  /** A test that holds of alike children alike holds of all children alike. */
  lemma AllChildrenAlike(xs: seq<Value>, mid: seq<Value>, ys: seq<Value>, test: Value -> bool)
    requires |xs| == |mid| && forall i | 0 <= i < |xs| :: test(xs[i]) <==> test(mid[i])
    requires multiset(mid) == multiset(ys)
    ensures (forall c | c in xs :: test(c)) <==> (forall c | c in ys :: test(c))
  {
    SameMembers(mid, ys);
    if forall c | c in xs :: test(c) {
      forall c | c in ys ensures test(c) {
        var i :| 0 <= i < |mid| && mid[i] == c;
        assert xs[i] in xs;
      }
    }
    if forall c | c in ys :: test(c) {
      forall c | c in xs ensures test(c) {
        var i :| 0 <= i < |xs| && xs[i] == c;
        assert mid[i] in mid;
      }
    }
  }

  lemma {:induction false} AlikeShallow(a: Value, b: Value, room: int)
    requires Alike(a, b)
    ensures Shallow(a, room) <==> Shallow(b, room)
    decreases a
  {
    if a.Mapping? || a.List? {
      var mid := AlikeContainer(a, b);
      forall i | 0 <= i < |mid| ensures Shallow(a.children[i], room - 1) <==> Shallow(mid[i], room - 1) {
        AlikeShallow(a.children[i], mid[i], room - 1);
      }
      AllChildrenAlike(a.children, mid, b.children, v => Shallow(v, room - 1));
    }
  }

  lemma {:induction false} AlikeGood(a: Value, b: Value)
    requires Alike(a, b)
    ensures Good(a) <==> Good(b)
    decreases a
  {
    if a.Mapping? || a.List? {
      var mid := AlikeContainer(a, b);
      forall i | 0 <= i < |mid| ensures Good(a.children[i]) <==> Good(mid[i]) {
        AlikeGood(a.children[i], mid[i]);
      }
      AllChildrenAlike(a.children, mid, b.children, v => Good(v));
    }
  }

  /** The order of keys and siblings, at every depth, makes no difference to the decision. */
  lemma SiblingOrderIrrelevant(a: Value, b: Value)
    requires Alike(a, b)
    ensures WithinLimits(a) <==> WithinLimits(b)
  {
    AlikeNodes(a, b);
    AlikeShallow(a, b, MAX_DEPTH);
    AlikeGood(a, b);
  }
}
