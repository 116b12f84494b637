/**
 Equality of the language's values, as `==` decides it.
 */
module Values {
  import opened Options
  import opened Numbers

  /** A double: a real number, an infinity, or not a number. */
  datatype Float = Finite(r: real) | Infinite(positive: bool) | NaN

  /** What makes a function the function it is. */
  datatype FnIdentity = Named(definition: nat) | Lambda(serial: nat) | Native

  datatype Value =
    | String(text: string)
    | Int(n: int)
    | Floating(f: Float)
    | Char(c: char)
    | Bool(b: bool)
    | Array(items: seq<Value>)
    | Tuple(items: seq<Value>)
    | Dict(entries: seq<Entry>)
    | Function(identity: FnIdentity)
    | Error(message: string)
    | Unit

  /** A dictionary entry; entries stand in the order they were inserted. */
  datatype Entry = Entry(key: string, value: Value)

  /** Keys are distinct and integers are in range, in every part of the value. */
  predicate WellFormed(v: Value) {
    match v
    case Int(n) => InIntRange(n)
    case Array(items) => forall i :: 0 <= i < |items| ==> WellFormed(items[i])
    case Tuple(items) => forall i :: 0 <= i < |items| ==> WellFormed(items[i])
    case Dict(es) => DistinctKeys(es) && forall i :: 0 <= i < |es| ==> WellFormed(es[i].value)
    case _ => true
  }

  predicate DistinctKeys(es: seq<Entry>) {
    forall i, j :: 0 <= i < j < |es| ==> es[i].key != es[j].key
  }

  // --------------------------------------------------------------------------
  // The comparison
  // --------------------------------------------------------------------------

  const MANTISSA: nat := 0x20_0000_0000_0000

  /** The distance of neighbouring doubles at `m`: the least power of two, from `u` on, that leaves 53 bits. */
  function Spacing(m: nat, u: nat): (s: nat)
    requires u > 0
    ensures s > 0
    decreases m - u
  {
    if m < MANTISSA * u then u else Spacing(m, 2 * u)
  }

  /** The nearest double, the even one of two that are as near. */
  function Rounded(m: nat): nat {
    var s := Spacing(m, 1);
    var q, r := m / s, m % s;
    if 2 * r < s || (2 * r == s && q % 2 == 0) then q * s else (q + 1) * s
  }

  /** An integer as a double. */
  function ToFloat(n: int): Float {
    Finite(if n < 0 then -(Rounded(-n) as real) else Rounded(n) as real)
  }

  /** The integers of the language are doubles: the range is that of the mantissa. */
  lemma IntegersAreDoubles(n: int)
    requires InIntRange(n)
    ensures ToFloat(n) == Finite(n as real)
  {
    var m := if n < 0 then -n else n;
    assert Spacing(m, 1) == 1;
    assert m / 1 == m && m % 1 == 0;
  }

  predicate FloatEqual(a: Float, b: Float) {
    !a.NaN? && a == b
  }

  predicate SameFunction(a: FnIdentity, b: FnIdentity) {
    !a.Native? && a == b
  }

  /** The entry under a key. */
  function Get(es: seq<Entry>, key: string): (at: Option<nat>)
    ensures at.Some? ==> at.value < |es| && es[at.value].key == key
    ensures at.None? ==> forall i :: 0 <= i < |es| ==> es[i].key != key
  {
    if es == [] then None
    else if es[|es| - 1].key == key then Some(|es| - 1)
    else Get(es[..|es| - 1], key)
  }

  predicate ValuesEqual(left: Value, right: Value)
    decreases left
  {
    match (left, right)
    case (String(a), String(b)) => a == b
    case (Int(a), Int(b)) => a == b
    case (Bool(a), Bool(b)) => a == b
    case (Floating(a), Floating(b)) => FloatEqual(a, b)
    case (Int(a), Floating(b)) => FloatEqual(ToFloat(a), b)
    case (Floating(a), Int(b)) => FloatEqual(a, ToFloat(b))
    case (Char(a), Char(b)) => a == b
    case (Array(a), Array(b)) => |a| == |b| && forall i :: 0 <= i < |a| ==> ValuesEqual(a[i], b[i])
    case (Tuple(a), Tuple(b)) => |a| == |b| && forall i :: 0 <= i < |a| ==> ValuesEqual(a[i], b[i])
    case (Dict(a), Dict(b)) =>
      |a| == |b| && forall i :: 0 <= i < |a| ==>
        Get(b, a[i].key).Some? && ValuesEqual(a[i].value, b[Get(b, a[i].key).value].value)
    case (Unit, Unit) => true
    case (Function(a), Function(b)) => SameFunction(a, b)
    case _ => false
  }

  // --------------------------------------------------------------------------
  // Reflexivity
  // --------------------------------------------------------------------------

  /** Nothing in the value is NaN, an error value or a native function. */
  predicate SelfEqual(v: Value) {
    match v
    case Floating(f) => !f.NaN?
    case Array(items) => forall i :: 0 <= i < |items| ==> SelfEqual(items[i])
    case Tuple(items) => forall i :: 0 <= i < |items| ==> SelfEqual(items[i])
    case Dict(es) => forall i :: 0 <= i < |es| ==> SelfEqual(es[i].value)
    case Function(id) => !id.Native?
    case Error(_) => false
    case _ => true
  }

  lemma GetOwnKey(es: seq<Entry>, i: nat)
    requires DistinctKeys(es) && i < |es|
    ensures Get(es, es[i].key) == Some(i)
  {
    var at := Get(es, es[i].key);
    assert at.Some?;
    if at.value < i || i < at.value {
      assert false;
    }
  }

  lemma {:induction false} ItemsReflexive(items: seq<Value>)
    requires forall i :: 0 <= i < |items| ==> WellFormed(items[i])
    ensures forall i :: 0 <= i < |items| ==> (ValuesEqual(items[i], items[i]) <==> SelfEqual(items[i]))
    decreases items
  {
    forall i | 0 <= i < |items| ensures ValuesEqual(items[i], items[i]) <==> SelfEqual(items[i]) {
      EqualToItself(items[i]);
    }
  }

  lemma {:induction false} EntriesReflexive(es: seq<Entry>)
    requires forall i :: 0 <= i < |es| ==> WellFormed(es[i].value)
    ensures forall i :: 0 <= i < |es| ==> (ValuesEqual(es[i].value, es[i].value) <==> SelfEqual(es[i].value))
    decreases es
  {
    forall i | 0 <= i < |es| ensures ValuesEqual(es[i].value, es[i].value) <==> SelfEqual(es[i].value) {
      EqualToItself(es[i].value);
    }
  }

  /** A value equals itself exactly when it holds no NaN, no error and no native function. */
  lemma {:induction false} EqualToItself(v: Value)
    requires WellFormed(v)
    ensures ValuesEqual(v, v) <==> SelfEqual(v)
    decreases v
  {
    match v
    case Array(items) => ItemsReflexive(items);
    case Tuple(items) => ItemsReflexive(items);
    case Dict(es) =>
      EntriesReflexive(es);
      forall i | 0 <= i < |es| ensures Get(es, es[i].key) == Some(i) {
        GetOwnKey(es, i);
      }
    case _ =>
  }

  /** Values that do not equal themselves, bare and inside others. */
  lemma NotEqualToThemselves(message: string)
    ensures !ValuesEqual(Floating(NaN), Floating(NaN)) && !ValuesEqual(Error(message), Error(message))
    ensures !ValuesEqual(Array([Unit, Floating(NaN)]), Array([Unit, Floating(NaN)]))
  {
    var a := Array([Unit, Floating(NaN)]);
    assert a.items[1] == Floating(NaN);
  }

  // --------------------------------------------------------------------------
  // Symmetry
  // --------------------------------------------------------------------------

  function Keys(es: seq<Entry>): set<string> {
    set i | 0 <= i < |es| :: es[i].key
  }

  lemma {:induction false} KeyCount(es: seq<Entry>)
    requires DistinctKeys(es)
    ensures |Keys(es)| == |es|
  {
    if es != [] {
      var front, last := es[..|es| - 1], es[|es| - 1].key;
      KeyCount(front);
      assert last !in Keys(front);
      assert Keys(es) == Keys(front) + {last};
    }
  }

  lemma SubsetOfSameSize(a: set<string>, b: set<string>)
    requires a <= b && |a| == |b|
    ensures a == b
  {
    if x :| x in b && x !in a {
      assert a + {x} <= b;
      SubsetIsSmaller(a + {x}, b);
    }
  }

  lemma SubsetIsSmaller(a: set<string>, b: set<string>)
    requires a <= b
    ensures |a| <= |b|
  {
    assert b == a + (b - a);
  }

  /** Counting keys: dictionaries of one size, one holding the other's keys, hold the same keys. */
  lemma SameKeys(a: seq<Entry>, b: seq<Entry>)
    requires DistinctKeys(a) && DistinctKeys(b) && |a| == |b|
    requires forall i :: 0 <= i < |a| ==> Get(b, a[i].key).Some?
    ensures forall j :: 0 <= j < |b| ==> Get(a, b[j].key).Some?
  {
    KeyCount(a);
    KeyCount(b);
    forall k | k in Keys(a) ensures k in Keys(b) {
      var i :| 0 <= i < |a| && a[i].key == k;
      assert Get(b, a[i].key).Some?;
    }
    SubsetOfSameSize(Keys(a), Keys(b));
    forall j | 0 <= j < |b| ensures Get(a, b[j].key).Some? {
      assert b[j].key in Keys(a);
    }
  }

  lemma {:induction false} SymmetricItems(a: seq<Value>, b: seq<Value>)
    requires |a| == |b| && forall i :: 0 <= i < |a| ==> WellFormed(a[i]) && WellFormed(b[i]) && ValuesEqual(a[i], b[i])
    ensures forall i :: 0 <= i < |a| ==> ValuesEqual(b[i], a[i])
    decreases a
  {
    forall i | 0 <= i < |a| ensures ValuesEqual(b[i], a[i]) {
      EqualSymmetric(a[i], b[i]);
    }
  }

  lemma {:induction false} SymmetricEntries(a: seq<Entry>, b: seq<Entry>)
    requires WellFormed(Dict(a)) && WellFormed(Dict(b)) && ValuesEqual(Dict(a), Dict(b))
    ensures ValuesEqual(Dict(b), Dict(a))
    decreases a
  {
    SameKeys(a, b);
    forall j | 0 <= j < |b|
      ensures Get(a, b[j].key).Some? && ValuesEqual(b[j].value, a[Get(a, b[j].key).value].value)
    {
      var i := Get(a, b[j].key).value;
      GetOwnKey(b, j);
      assert Get(b, a[i].key) == Some(j);
      EqualSymmetric(a[i].value, b[j].value);
    }
  }

  lemma {:induction false} EqualSymmetric(a: Value, b: Value)
    requires WellFormed(a) && WellFormed(b) && ValuesEqual(a, b)
    ensures ValuesEqual(b, a)
    decreases a
  {
    match (a, b)
    case (Array(x), Array(y)) => SymmetricItems(x, y);
    case (Tuple(x), Tuple(y)) => SymmetricItems(x, y);
    case (Dict(x), Dict(y)) => SymmetricEntries(x, y);
    case _ =>
  }

  // --------------------------------------------------------------------------
  // Transitivity
  // --------------------------------------------------------------------------

  lemma {:induction false} TransitiveItems(a: seq<Value>, b: seq<Value>, c: seq<Value>)
    requires |a| == |b| == |c|
    requires forall i :: 0 <= i < |a| ==> WellFormed(a[i]) && WellFormed(b[i]) && WellFormed(c[i])
    requires forall i :: 0 <= i < |a| ==> ValuesEqual(a[i], b[i]) && ValuesEqual(b[i], c[i])
    ensures forall i :: 0 <= i < |a| ==> ValuesEqual(a[i], c[i])
    decreases a
  {
    forall i | 0 <= i < |a| ensures ValuesEqual(a[i], c[i]) {
      EqualTransitive(a[i], b[i], c[i]);
    }
  }

  lemma {:induction false} TransitiveEntries(a: seq<Entry>, b: seq<Entry>, c: seq<Entry>)
    requires WellFormed(Dict(a)) && WellFormed(Dict(b)) && WellFormed(Dict(c))
    requires ValuesEqual(Dict(a), Dict(b)) && ValuesEqual(Dict(b), Dict(c))
    ensures ValuesEqual(Dict(a), Dict(c))
    decreases a
  {
    forall i | 0 <= i < |a|
      ensures Get(c, a[i].key).Some? && ValuesEqual(a[i].value, c[Get(c, a[i].key).value].value)
    {
      var j := Get(b, a[i].key).value;
      assert b[j].key == a[i].key;
      EqualTransitive(a[i].value, b[j].value, c[Get(c, b[j].key).value].value);
    }
  }

  /** Equality passes through integers and floats alike, for in range the conversion is exact. */
  lemma {:induction false} EqualTransitive(a: Value, b: Value, c: Value)
    requires WellFormed(a) && WellFormed(b) && WellFormed(c)
    requires ValuesEqual(a, b) && ValuesEqual(b, c)
    ensures ValuesEqual(a, c)
    decreases a
  {
    match (a, b, c)
    case (Array(x), Array(y), Array(z)) => TransitiveItems(x, y, z);
    case (Tuple(x), Tuple(y), Tuple(z)) => TransitiveItems(x, y, z);
    case (Dict(x), Dict(y), Dict(z)) => TransitiveEntries(x, y, z);
    case (Int(x), Floating(_), Int(z)) =>
      IntegersAreDoubles(x);
      IntegersAreDoubles(z);
    case _ =>
  }

  /** One past the range, two integers have the same double, and equality would not be transitive. */
  lemma TransitivityNeedsTheRange()
    ensures var n := 9007199254740992;
            && ValuesEqual(Int(n), Floating(Finite(n as real))) && ValuesEqual(Floating(Finite(n as real)), Int(n + 1))
            && !ValuesEqual(Int(n), Int(n + 1))
  {
    var n: nat := 9007199254740992;
    assert Spacing(n, 1) == 2 && n / 2 == 4503599627370496 && n % 2 == 0;
    assert Spacing(n + 1, 1) == 2 && (n + 1) / 2 == 4503599627370496 && (n + 1) % 2 == 1;
  }

  // --------------------------------------------------------------------------
  // Key order
  // --------------------------------------------------------------------------

  /** Reordering the entries of a dictionary gives an equal dictionary. */
  lemma KeyOrderIsNotTold(a: seq<Entry>, b: seq<Entry>)
    requires WellFormed(Dict(a)) && WellFormed(Dict(b)) && SelfEqual(Dict(a))
    requires multiset(a) == multiset(b)
    ensures ValuesEqual(Dict(a), Dict(b))
  {
    assert |a| == |multiset(a)| == |multiset(b)| == |b|;
    forall i | 0 <= i < |a|
      ensures Get(b, a[i].key).Some? && ValuesEqual(a[i].value, b[Get(b, a[i].key).value].value)
    {
      assert a[i] in multiset(b);
      var j :| 0 <= j < |b| && b[j] == a[i];
      GetOwnKey(b, j);
      EqualToItself(a[i].value);
    }
  }

  // --------------------------------------------------------------------------
  // Equal values have the same content
  // --------------------------------------------------------------------------

  /** What a value holds: one kind of number, and dictionaries without an order. */
  datatype Content =
    | Characters(text: string)
    | Number(r: real)
    | Infinity(positive: bool)
    | Letter(c: char)
    | Truth(b: bool)
    | Listed(items: seq<Content>)
    | Tupled(items: seq<Content>)
    | Keyed(entries: map<string, Content>)
    | Callable(identity: FnIdentity)
    | Nothing
    | Incomparable

  function ContentOf(v: Value): Content {
    match v
    case String(s) => Characters(s)
    case Int(n) => Number(n as real)
    case Floating(Finite(r)) => Number(r)
    case Floating(Infinite(positive)) => Infinity(positive)
    case Floating(NaN) => Incomparable
    case Char(c) => Letter(c)
    case Bool(b) => Truth(b)
    case Array(items) => Listed(seq(|items|, i requires 0 <= i < |items| => ContentOf(items[i])))
    case Tuple(items) => Tupled(seq(|items|, i requires 0 <= i < |items| => ContentOf(items[i])))
    case Dict(es) => Keyed(map key | key in Keys(es) :: ContentOf(es[Get(es, key).value].value))
    case Function(id) => Callable(id)
    case Unit => Nothing
    case Error(_) => Incomparable
  }

  /** The items have the same content one by one, and none of them holds anything incomparable. */
  predicate SameItems(a: seq<Value>, b: seq<Value>) {
    |a| == |b| && forall i :: 0 <= i < |a| ==> Alike(a[i], b[i])
  }

  predicate Alike(a: Value, b: Value) {
    SelfEqual(a) && SelfEqual(b) && ContentOf(a) == ContentOf(b)
  }

  lemma ItemContents(a: seq<Value>, b: seq<Value>)
    ensures Alike(Array(a), Array(b)) <==> SameItems(a, b)
    ensures Alike(Tuple(a), Tuple(b)) <==> SameItems(a, b)
  {
    var x, y := ContentOf(Array(a)), ContentOf(Array(b));
    if x == y {
      assert |a| == |x.items| == |b|;
      forall i | 0 <= i < |a| ensures ContentOf(a[i]) == ContentOf(b[i]) {
        assert x.items[i] == y.items[i];
      }
    }
    var t, u := ContentOf(Tuple(a)), ContentOf(Tuple(b));
    if t == u {
      assert |a| == |t.items| == |b|;
      forall i | 0 <= i < |a| ensures ContentOf(a[i]) == ContentOf(b[i]) {
        assert t.items[i] == u.items[i];
      }
    }
  }

  /** What a dictionary holds under a key. */
  lemma ContentUnder(es: seq<Entry>, i: nat)
    requires DistinctKeys(es) && i < |es|
    ensures es[i].key in ContentOf(Dict(es)).entries
    ensures ContentOf(Dict(es)).entries[es[i].key] == ContentOf(es[i].value)
  {
    GetOwnKey(es, i);
  }

  /** The dictionaries have the same keys, with values alike under each. */
  predicate SameEntries(a: seq<Entry>, b: seq<Entry>) {
    |a| == |b| && forall i :: 0 <= i < |a| ==>
      Get(b, a[i].key).Some? && Alike(a[i].value, b[Get(b, a[i].key).value].value)
  }

  lemma SameEntriesSameContent(a: seq<Entry>, b: seq<Entry>)
    requires DistinctKeys(a) && DistinctKeys(b) && SameEntries(a, b)
    ensures Alike(Dict(a), Dict(b))
  {
    var x, y := ContentOf(Dict(a)).entries, ContentOf(Dict(b)).entries;
    EntriesKeysSame(a, b);
    forall key | key in Keys(a) ensures x[key] == y[key] {
      UnderSameKey(a, b, key);
    }
    assert x == y;
  }

  lemma EntriesKeysSame(a: seq<Entry>, b: seq<Entry>)
    requires DistinctKeys(a) && DistinctKeys(b) && SameEntries(a, b)
    ensures Keys(a) == Keys(b)
    ensures SelfEqual(Dict(a)) && SelfEqual(Dict(b))
  {
    SameKeys(a, b);
    forall j | 0 <= j < |b| ensures b[j].key in Keys(a) && SelfEqual(b[j].value) {
      var i := Get(a, b[j].key).value;
      GetOwnKey(b, j);
      assert a[i].key == b[j].key;
    }
    forall i | 0 <= i < |a| ensures a[i].key in Keys(b) && SelfEqual(a[i].value) {
      assert b[Get(b, a[i].key).value].key == a[i].key;
    }
  }

  lemma UnderSameKey(a: seq<Entry>, b: seq<Entry>, key: string)
    requires DistinctKeys(a) && DistinctKeys(b) && SameEntries(a, b) && key in Keys(a)
    ensures key in Keys(b) && ContentOf(Dict(a)).entries[key] == ContentOf(Dict(b)).entries[key]
  {
    var i :| 0 <= i < |a| && a[i].key == key;
    GetOwnKey(a, i);
    assert b[Get(b, a[i].key).value].key == key;
  }

  lemma SameContentSameEntries(a: seq<Entry>, b: seq<Entry>)
    requires DistinctKeys(a) && DistinctKeys(b) && Alike(Dict(a), Dict(b))
    ensures SameEntries(a, b)
  {
    var x, y := ContentOf(Dict(a)).entries, ContentOf(Dict(b)).entries;
    assert x.Keys == Keys(a) && y.Keys == Keys(b);
    KeyCount(a);
    KeyCount(b);
    forall i | 0 <= i < |a| ensures Get(b, a[i].key).Some? && Alike(a[i].value, b[Get(b, a[i].key).value].value) {
      ContentUnder(a, i);
      assert a[i].key in y;
      ContentUnder(b, Get(b, a[i].key).value);
    }
  }

  lemma {:induction false} EqualItemsAlike(a: seq<Value>, b: seq<Value>)
    requires |a| == |b| && forall i :: 0 <= i < |a| ==> WellFormed(a[i]) && WellFormed(b[i])
    ensures forall i :: 0 <= i < |a| ==> (ValuesEqual(a[i], b[i]) <==> Alike(a[i], b[i]))
    decreases a
  {
    forall i | 0 <= i < |a| ensures ValuesEqual(a[i], b[i]) <==> Alike(a[i], b[i]) {
      EqualIffSameContent(a[i], b[i]);
    }
  }

  lemma {:induction false} EqualEntriesAlike(a: seq<Entry>, b: seq<Entry>)
    requires WellFormed(Dict(a)) && WellFormed(Dict(b))
    ensures ValuesEqual(Dict(a), Dict(b)) <==> SameEntries(a, b)
    decreases a
  {
    forall i | 0 <= i < |a| && Get(b, a[i].key).Some?
      ensures var other := b[Get(b, a[i].key).value].value;
              ValuesEqual(a[i].value, other) <==> Alike(a[i].value, other)
    {
      EqualIffSameContent(a[i].value, b[Get(b, a[i].key).value].value);
    }
  }

  /**
   Values are equal exactly when they have the same content and hold nothing that does
   not equal itself: numbers by their value, texts by their characters, lists item by
   item, dictionaries as maps.
   */
  lemma {:induction false} EqualIffSameContent(a: Value, b: Value)
    requires WellFormed(a) && WellFormed(b)
    ensures ValuesEqual(a, b) <==> SelfEqual(a) && SelfEqual(b) && ContentOf(a) == ContentOf(b)
    decreases a
  {
    match (a, b)
    case (Array(x), Array(y)) =>
      if |x| == |y| {
        EqualItemsAlike(x, y);
      }
      ItemContents(x, y);
    case (Tuple(x), Tuple(y)) =>
      if |x| == |y| {
        EqualItemsAlike(x, y);
      }
      ItemContents(x, y);
    case (Dict(x), Dict(y)) =>
      EqualEntriesAlike(x, y);
      if SameEntries(x, y) {
        SameEntriesSameContent(x, y);
      }
      if Alike(a, b) {
        SameContentSameEntries(x, y);
      }
    case (Int(x), Floating(_)) => IntegersAreDoubles(x);
    case (Floating(_), Int(y)) => IntegersAreDoubles(y);
    case _ =>
  }
}
