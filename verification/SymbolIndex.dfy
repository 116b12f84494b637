/**
 The symbol index of the language server: the same symbols by document and by
 name, kept in step while documents are indexed, indexed again and removed.
 */
module SymbolIndex {
  import opened Options

  type Uri = string

  datatype Kind = Variable | Constant | Function | Parameter | Module | Import | Iterator

  /** A symbol of a document, with the symbols inside it. */
  datatype Symbol = Symbol(name: string, kind: Kind, line: nat, children: seq<Symbol>)

  datatype SymbolRef = SymbolRef(uri: Uri, name: string, kind: Kind, line: nat)

  type Refs = seq<SymbolRef>

  type Index = map<string, Refs>

  /** A symbol and all symbols inside it, each before its children. */
  function Flatten(s: Symbol, uri: Uri): Refs
    decreases s
  {
    [SymbolRef(uri, s.name, s.kind, s.line)] + FlattenAll(s.children, uri)
  }

  function FlattenAll(ss: seq<Symbol>, uri: Uri): Refs
    decreases ss
  {
    if ss == [] then [] else Flatten(ss[0], uri) + FlattenAll(ss[1..], uri)
  }

  predicate AllIn(rs: Refs, uri: Uri) {
    forall i :: 0 <= i < |rs| ==> rs[i].uri == uri
  }

  lemma {:induction false} FlattenAllIn(ss: seq<Symbol>, uri: Uri)
    ensures AllIn(FlattenAll(ss, uri), uri)
    decreases ss
  {
    if ss != [] {
      FlattenAllIn(ss[0].children, uri);
      FlattenAllIn(ss[1..], uri);
    }
  }

  // --------------------------------------------------------------------------
  // Flattening lists every symbol once, each before what is inside it
  // --------------------------------------------------------------------------

  /** The way to a symbol: its number among its siblings, below the way to the symbol around it. */
  type Way = seq<nat>

  /** The symbol that a way leads to. */
  function Descend(ss: seq<Symbol>, way: Way): Option<Symbol>
    decreases |way|
  {
    if way == [] || way[0] >= |ss| then None
    else if |way| == 1 then Some(ss[way[0]])
    else Descend(ss[way[0]].children, way[1..])
  }

  function RefOf(s: Symbol, uri: Uri): SymbolRef {
    SymbolRef(uri, s.name, s.kind, s.line)
  }

  /** A symbol comes before those inside it, and with them before its later siblings. */
  predicate Precedes(a: Way, b: Way)
    decreases |a|
  {
    b != [] && (a == [] || a[0] < b[0] || (a[0] == b[0] && Precedes(a[1..], b[1..])))
  }

  /** Where the symbol that a way leads to stands in the flattened list. */
  function Position(ss: seq<Symbol>, uri: Uri, way: Way): nat
    requires Descend(ss, way).Some?
    decreases |way|, |ss|
  {
    if way[0] > 0 then |Flatten(ss[0], uri)| + Position(ss[1..], uri, [way[0] - 1] + way[1..])
    else if |way| == 1 then 0
    else 1 + Position(ss[0].children, uri, way[1..])
  }

  lemma DescendNext(ss: seq<Symbol>, way: Way)
    requires way != [] && way[0] > 0 && ss != []
    ensures Descend(ss[1..], [way[0] - 1] + way[1..]) == Descend(ss, way)
  {
    assert ([way[0] - 1] + way[1..])[1..] == way[1..];
  }

  lemma {:induction false} ListedAt(ss: seq<Symbol>, uri: Uri, way: Way)
    requires Descend(ss, way).Some?
    ensures Position(ss, uri, way) < |FlattenAll(ss, uri)|
    ensures FlattenAll(ss, uri)[Position(ss, uri, way)] == RefOf(Descend(ss, way).value, uri)
    decreases |way|, |ss|
  {
    if way[0] > 0 {
      DescendNext(ss, way);
      ListedAt(ss[1..], uri, [way[0] - 1] + way[1..]);
    } else if |way| > 1 {
      ListedAt(ss[0].children, uri, way[1..]);
    }
  }

  lemma {:induction false} OrderKept(ss: seq<Symbol>, uri: Uri, a: Way, b: Way)
    requires Descend(ss, a).Some? && Descend(ss, b).Some? && Precedes(a, b)
    ensures Position(ss, uri, a) < Position(ss, uri, b)
    decreases |a|, |ss|
  {
    if a[0] > 0 {
      var a', b' := [a[0] - 1] + a[1..], [b[0] - 1] + b[1..];
      DescendNext(ss, a);
      DescendNext(ss, b);
      assert a'[1..] == a[1..] && b'[1..] == b[1..];
      OrderKept(ss[1..], uri, a', b');
    } else if b[0] > 0 {
      InsideFirst(ss, uri, a);
    } else if |a| > 1 {
      OrderKept(ss[0].children, uri, a[1..], b[1..]);
    }
  }

  lemma InsideFirst(ss: seq<Symbol>, uri: Uri, a: Way)
    requires Descend(ss, a).Some? && a[0] == 0
    ensures Position(ss, uri, a) < |Flatten(ss[0], uri)|
  {
    if |a| > 1 {
      ListedAt(ss[0].children, uri, a[1..]);
    }
  }

  /** The way to the symbol whose reference stands at a position. */
  function WayTo(ss: seq<Symbol>, uri: Uri, k: nat): Way
    requires k < |FlattenAll(ss, uri)|
    decreases ss
  {
    if k == 0 then [0]
    else if k < |Flatten(ss[0], uri)| then [0] + WayTo(ss[0].children, uri, k - 1)
    else
      var way := WayTo(ss[1..], uri, k - |Flatten(ss[0], uri)|);
      if way == [] then [] else [way[0] + 1] + way[1..]
  }

  lemma StepUp(way: Way)
    requires way != []
    ensures var up := [way[0] + 1] + way[1..]; up[1..] == way[1..] && [up[0] - 1] + up[1..] == way
  {
  }

  lemma {:induction false} EveryPlaceIsReached(ss: seq<Symbol>, uri: Uri, k: nat)
    requires k < |FlattenAll(ss, uri)|
    ensures Descend(ss, WayTo(ss, uri, k)).Some? && Position(ss, uri, WayTo(ss, uri, k)) == k
    decreases ss
  {
    if k > 0 {
      var n := |Flatten(ss[0], uri)|;
      if k < n {
        var way := WayTo(ss[0].children, uri, k - 1);
        EveryPlaceIsReached(ss[0].children, uri, k - 1);
        assert ([0] + way)[1..] == way;
      } else {
        var way := WayTo(ss[1..], uri, k - n);
        EveryPlaceIsReached(ss[1..], uri, k - n);
        var up := [way[0] + 1] + way[1..];
        StepUp(way);
        DescendNext(ss, up);
      }
    }
  }

  /** The way leads to a symbol, whose reference stands at `k`. */
  predicate LeadsTo(ss: seq<Symbol>, uri: Uri, way: Way, k: nat) {
    && Descend(ss, way).Some? && Position(ss, uri, way) == k < |FlattenAll(ss, uri)|
    && FlattenAll(ss, uri)[k] == RefOf(Descend(ss, way).value, uri)
  }

  /**
   Flattening lists the references of all symbols, however deep: each way leads to one
   place, in the order of the ways, and every place is led to.
   */
  lemma FlattenListsAll(ss: seq<Symbol>, uri: Uri)
    ensures forall way: Way :: Descend(ss, way).Some? ==> LeadsTo(ss, uri, way, Position(ss, uri, way))
    ensures forall a: Way, b: Way :: Descend(ss, a).Some? && Descend(ss, b).Some? && Precedes(a, b) ==>
              Position(ss, uri, a) < Position(ss, uri, b)
    ensures forall k :: 0 <= k < |FlattenAll(ss, uri)| ==> LeadsTo(ss, uri, WayTo(ss, uri, k), k)
  {
    forall way: Way | Descend(ss, way).Some? ensures LeadsTo(ss, uri, way, Position(ss, uri, way)) {
      ListedAt(ss, uri, way);
    }
    forall a: Way, b: Way | Descend(ss, a).Some? && Descend(ss, b).Some? && Precedes(a, b)
      ensures Position(ss, uri, a) < Position(ss, uri, b)
    {
      OrderKept(ss, uri, a, b);
    }
    forall k | 0 <= k < |FlattenAll(ss, uri)| ensures LeadsTo(ss, uri, WayTo(ss, uri, k), k) {
      EveryPlaceIsReached(ss, uri, k);
      ListedAt(ss, uri, WayTo(ss, uri, k));
    }
  }

  /** Of two ways, one precedes the other unless they are the same. */
  lemma {:induction false} WaysAreOrdered(a: Way, b: Way)
    ensures a == b || Precedes(a, b) || Precedes(b, a)
    decreases |a|
  {
    if a != [] && b != [] && a[0] == b[0] {
      WaysAreOrdered(a[1..], b[1..]);
      assert a == [a[0]] + a[1..] && b == [b[0]] + b[1..];
    }
  }

  // --------------------------------------------------------------------------
  // Parts of a list of references
  // --------------------------------------------------------------------------

  function Of(rs: Refs, uri: Uri): Refs {
    if rs == [] then [] else Of(rs[..|rs| - 1], uri) + (if rs[|rs| - 1].uri == uri then [rs[|rs| - 1]] else [])
  }

  function Without(rs: Refs, uri: Uri): Refs {
    if rs == [] then [] else Without(rs[..|rs| - 1], uri) + (if rs[|rs| - 1].uri == uri then [] else [rs[|rs| - 1]])
  }

  function Named(rs: Refs, name: string): Refs {
    if rs == [] then [] else Named(rs[..|rs| - 1], name) + (if rs[|rs| - 1].name == name then [rs[|rs| - 1]] else [])
  }

  lemma OfSnoc(rs: Refs, r: SymbolRef, uri: Uri)
    ensures Of(rs + [r], uri) == Of(rs, uri) + (if r.uri == uri then [r] else [])
  {
    assert (rs + [r])[..|rs|] == rs;
  }

  lemma NamedSnoc(rs: Refs, r: SymbolRef, name: string)
    ensures Named(rs + [r], name) == Named(rs, name) + (if r.name == name then [r] else [])
  {
    assert (rs + [r])[..|rs|] == rs;
  }

  lemma {:induction false} OfWithout(rs: Refs, uri: Uri, gone: Uri)
    ensures Of(Without(rs, gone), uri) == if uri == gone then [] else Of(rs, uri)
  {
    if rs != [] {
      var front, last := rs[..|rs| - 1], rs[|rs| - 1];
      OfWithout(front, uri, gone);
      assert Without(front, gone) + [] == Without(front, gone) && Of(front, uri) + [] == Of(front, uri);
      if last.uri != gone {
        OfSnoc(Without(front, gone), last, uri);
      }
    }
  }

  lemma EmptyParts(a: Refs, b: Refs)
    requires a + b == []
    ensures a == [] && b == []
  {
    assert |a + b| == |a| + |b|;
  }

  lemma {:induction false} WithoutAbsent(rs: Refs, uri: Uri)
    requires Of(rs, uri) == []
    ensures Without(rs, uri) == rs
  {
    if rs != [] {
      var front, last := rs[..|rs| - 1], rs[|rs| - 1];
      var tail := if last.uri == uri then [last] else [];
      EmptyParts(Of(front, uri), tail);
      WithoutAbsent(front, uri);
      assert Without(rs, uri) == front + [last];
    }
  }

  lemma {:induction false} WithoutTwice(rs: Refs, uri: Uri)
    ensures Without(Without(rs, uri), uri) == Without(rs, uri)
  {
    OfWithout(rs, uri, uri);
    WithoutAbsent(Without(rs, uri), uri);
  }

  // --------------------------------------------------------------------------
  // The two indexes in step
  // --------------------------------------------------------------------------

  /** The references under a key; a key that is not there has none. */
  function At(m: Index, key: string): Refs {
    if key in m then m[key] else []
  }

  predicate NoEmptyList(m: Index) {
    forall key :: key in m ==> m[key] != []
  }

  /** What a document lists and what a name lists have the same references in common, in the same order. */
  predicate Agree(document: Refs, named: Refs, uri: Uri, name: string) {
    AllIn(document, uri) && Of(named, uri) == Named(document, name)
  }

  /** Under each name, the references of each document are that document's, in its order. */
  ghost predicate InStep(byDocument: Index, byName: Index) {
    && NoEmptyList(byName)
    && forall name: string, uri: Uri :: Agree(At(byDocument, uri), At(byName, name), uri, name)
  }

  /** The way leads to a symbol of this name. */
  predicate SymbolNamed(ss: seq<Symbol>, way: Way, name: string) {
    Descend(ss, way).Some? && Descend(ss, way).value.name == name
  }

  predicate IsRef(ss: seq<Symbol>, way: Way, r: SymbolRef) {
    Descend(ss, way).Some? && RefOf(Descend(ss, way).value, r.uri) == r
  }

  lemma {:induction false} OfMembers(rs: Refs, uri: Uri)
    ensures forall r :: r in Of(rs, uri) <==> r in rs && r.uri == uri
  {
    if rs != [] {
      OfMembers(rs[..|rs| - 1], uri);
      assert rs == rs[..|rs| - 1] + [rs[|rs| - 1]];
    }
  }

  lemma InItsDocument(rs: Refs, r: SymbolRef)
    requires r in rs
    ensures r in Of(rs, r.uri)
  {
    OfMembers(rs, r.uri);
  }

  lemma NamedSymbolIsFound(ss: seq<Symbol>, uri: Uri, way: Way, name: string, found: Refs)
    requires SymbolNamed(ss, way, name) && Of(found, uri) == Named(FlattenAll(ss, uri), name)
    ensures RefOf(Descend(ss, way).value, uri) in found
  {
    var r := RefOf(Descend(ss, way).value, uri);
    ListedAt(ss, uri, way);
    NamedMembers(FlattenAll(ss, uri), name);
    OfMembers(found, uri);
    assert r in FlattenAll(ss, uri);
  }

  lemma FoundIsNamedSymbol(ss: seq<Symbol>, r: SymbolRef, name: string) returns (way: Way)
    requires r in Named(FlattenAll(ss, r.uri), name)
    ensures SymbolNamed(ss, way, name) && IsRef(ss, way, r)
  {
    NamedMembers(FlattenAll(ss, r.uri), name);
    var k :| 0 <= k < |FlattenAll(ss, r.uri)| && FlattenAll(ss, r.uri)[k] == r;
    way := WayTo(ss, r.uri, k);
    EveryPlaceIsReached(ss, r.uri, k);
    ListedAt(ss, r.uri, way);
  }

  lemma {:induction false} MemberOfItsDocument(rs: Refs, i: nat)
    requires i < |rs|
    ensures rs[i] in Of(rs, rs[i].uri)
  {
    if i < |rs| - 1 {
      MemberOfItsDocument(rs[..|rs| - 1], i);
    }
  }

  lemma {:induction false} NamedMembers(rs: Refs, name: string)
    ensures forall r :: r in Named(rs, name) <==> r in rs && r.name == name
  {
    if rs != [] {
      NamedMembers(rs[..|rs| - 1], name);
      assert rs == rs[..|rs| - 1] + [rs[|rs| - 1]];
    }
  }

  /** A name lists only symbols of that name, each of which its document lists too. */
  lemma ListedUnderItsName(byDocument: Index, byName: Index, name: string, i: nat)
    requires InStep(byDocument, byName) && i < |At(byName, name)|
    ensures At(byName, name)[i].name == name && At(byName, name)[i] in At(byDocument, At(byName, name)[i].uri)
  {
    var r := At(byName, name)[i];
    MemberOfItsDocument(At(byName, name), i);
    NamedMembers(At(byDocument, r.uri), name);
    assert Agree(At(byDocument, r.uri), At(byName, name), r.uri, name);
  }

  /** A document that is not indexed has left no trace under any name. */
  lemma RemovedLeavesNoTrace(byDocument: Index, byName: Index, uri: Uri)
    requires InStep(byDocument, byName) && uri !in byDocument
    ensures forall name, i :: 0 <= i < |At(byName, name)| ==> At(byName, name)[i].uri != uri
  {
    forall name, i | 0 <= i < |At(byName, name)| ensures At(byName, name)[i].uri != uri {
      ListedUnderItsName(byDocument, byName, name, i);
    }
  }

  // --------------------------------------------------------------------------
  // Counting
  // --------------------------------------------------------------------------

  /** All references of an index, with their multiplicities. */
  ghost function All(m: Index): multiset<SymbolRef> {
    if m == map[] then multiset{}
    else
      var key :| key in m;
      multiset(m[key]) + All(m - {key})
  }

  /** Any key may be counted first. */
  lemma {:induction false} AllWithout(m: Index, key: string)
    requires key in m
    ensures All(m) == multiset(m[key]) + All(m - {key})
    decreases |m|
  {
    var k :| k in m && All(m) == multiset(m[k]) + All(m - {k});
    if k != key {
      AllWithout(m - {k}, key);
      AllWithout(m - {key}, k);
      assert m - {k} - {key} == m - {key} - {k};
    }
  }

  /** A reference that only ever stands under `key` is counted there. */
  lemma {:induction false} CountedUnderKey(m: Index, r: SymbolRef, key: string)
    requires forall k :: k in m && r in m[k] ==> k == key
    ensures All(m)[r] == multiset(At(m, key))[r]
    decreases |m|
  {
    if m != map[] {
      var k :| k in m && All(m) == multiset(m[k]) + All(m - {k});
      CountedUnderKey(m - {k}, r, key);
    }
  }

  lemma CountSnoc(rs: Refs, r: SymbolRef)
    requires rs != []
    ensures multiset(rs)[r] == multiset(rs[..|rs| - 1])[r] + if rs[|rs| - 1] == r then 1 else 0
  {
    assert rs == rs[..|rs| - 1] + [rs[|rs| - 1]];
  }

  lemma {:induction false} CountOf(rs: Refs, r: SymbolRef)
    ensures multiset(Of(rs, r.uri))[r] == multiset(rs)[r]
  {
    if rs != [] {
      CountOf(rs[..|rs| - 1], r);
      CountSnoc(rs, r);
    }
  }

  lemma {:induction false} CountNamed(rs: Refs, r: SymbolRef)
    ensures multiset(Named(rs, r.name))[r] == multiset(rs)[r]
  {
    if rs != [] {
      CountNamed(rs[..|rs| - 1], r);
      CountSnoc(rs, r);
    }
  }

  /** Both indexes hold the same references, each as often. */
  lemma SameReferences(byDocument: Index, byName: Index)
    requires InStep(byDocument, byName)
    ensures All(byDocument) == All(byName)
  {
    forall r: SymbolRef ensures All(byDocument)[r] == All(byName)[r] {
      forall k | k in byDocument && r in byDocument[k] ensures k == r.uri {
        assert Agree(At(byDocument, k), At(byName, ""), k, "");
      }
      forall k | k in byName && r in byName[k] ensures k == r.name {
        var i :| 0 <= i < |byName[k]| && byName[k][i] == r;
        ListedUnderItsName(byDocument, byName, k, i);
      }
      CountedUnderKey(byDocument, r, r.uri);
      CountedUnderKey(byName, r, r.name);
      CountOf(At(byName, r.name), r);
      CountNamed(At(byDocument, r.uri), r);
      assert Agree(At(byDocument, r.uri), At(byName, r.name), r.uri, r.name);
    }
  }

  method SumOfLengths(m: Index) returns (n: nat)
    ensures n == |All(m)|
  {
    n := 0;
    var rest := m;
    while rest != map[]
      invariant n + |All(rest)| == |All(m)|
      decreases |rest|
    {
      var key :| key in rest;
      AllWithout(rest, key);
      n := n + |rest[key]|;
      rest := rest - {key};
    }
  }

  // --------------------------------------------------------------------------
  // The index
  // --------------------------------------------------------------------------

  /** The index without the references of a document, lists that become empty dropped. */
  function Purged(m: Index, uri: Uri): Index {
    map key | key in m && Without(m[key], uri) != [] :: Without(m[key], uri)
  }

  lemma PurgedAt(m: Index, uri: Uri, key: string)
    ensures At(Purged(m, uri), key) == Without(At(m, key), uri)
  {
  }

  /** Purging a document keeps the indexes in step. */
  lemma PurgeKeepsStep(byDocument: Index, byName: Index, uri: Uri)
    requires InStep(byDocument, byName)
    ensures InStep(byDocument - {uri}, Purged(byName, uri))
  {
    forall name: string, u: Uri ensures Agree(At(byDocument - {uri}, u), At(Purged(byName, uri), name), u, name) {
      PurgedAt(byName, uri, name);
      OfWithout(At(byName, name), u, uri);
      assert Agree(At(byDocument, u), At(byName, name), u, name);
    }
  }

  /** Names that a document does not use have nothing to purge. */
  lemma PurgeTouchesItsNames(byDocument: Index, byName: Index, uri: Uri, name: string)
    requires InStep(byDocument, byName) && Named(At(byDocument, uri), name) == []
    ensures Without(At(byName, name), uri) == At(byName, name)
  {
    assert Agree(At(byDocument, uri), At(byName, name), uri, name);
    WithoutAbsent(At(byName, name), uri);
  }

  function Pushed(m: Index, key: string, r: SymbolRef): Index {
    m[key := At(m, key) + [r]]
  }

  function AddedIf(rs: Refs, r: SymbolRef, added: bool): Refs {
    if added then rs + [r] else rs
  }

  lemma AddKeepsAgreement(document: Refs, named: Refs, uri: Uri, name: string, r: SymbolRef)
    requires Agree(document, named, uri, name)
    ensures Agree(AddedIf(document, r, r.uri == uri), AddedIf(named, r, r.name == name), uri, name)
  {
    OfSnoc(named, r, uri);
    NamedSnoc(document, r, name);
    AppendedLast(Of(named, uri), [], r);
    if r.uri == uri {
      AllInSnoc(document, r, uri);
    }
  }

  lemma AllInSnoc(rs: Refs, r: SymbolRef, uri: Uri)
    requires AllIn(rs, uri) && r.uri == uri
    ensures AllIn(rs + [r], uri)
  {
  }

  /** Adding a reference to its document and to its name keeps them in step. */
  lemma AddKeepsStep(byDocument: Index, byName: Index, r: SymbolRef)
    requires InStep(byDocument, byName)
    ensures InStep(Pushed(byDocument, r.uri, r), Pushed(byName, r.name, r))
  {
    forall name: string, u: Uri
      ensures Agree(At(Pushed(byDocument, r.uri, r), u), At(Pushed(byName, r.name, r), name), u, name)
    {
      assert Agree(At(byDocument, u), At(byName, name), u, name);
      AddKeepsAgreement(At(byDocument, u), At(byName, name), u, name, r);
    }
  }

  /** Under each name, the references of that name have been added at the end. */
  ghost predicate Extended(before: Index, after: Index, rs: Refs) {
    forall name :: At(after, name) == At(before, name) + Named(rs, name)
  }

  lemma PushAt(list: Refs, rs: Refs, r: SymbolRef, name: string)
    ensures AddedIf(list + Named(rs, name), r, r.name == name) == list + Named(rs + [r], name)
  {
    NamedSnoc(rs, r, name);
    AppendedLast(list, Named(rs, name), r);
  }

  lemma AppendedLast(list: Refs, named: Refs, r: SymbolRef)
    ensures (list + named) + [r] == list + (named + [r])
    ensures list + [] == list && named + [] == named
  {
  }

  lemma PushExtends(before: Index, after: Index, rs: Refs, r: SymbolRef)
    requires Extended(before, after, rs)
    ensures Extended(before, Pushed(after, r.name, r), rs + [r])
  {
    forall name ensures At(Pushed(after, r.name, r), name) == At(before, name) + Named(rs + [r], name) {
      assert At(after, name) == At(before, name) + Named(rs, name);
      PushAt(At(before, name), rs, r, name);
    }
  }

  /** The lists of the names that occur in `rs` have lost a document's references; the others are as before. */
  ghost predicate PurgedFor(before: Index, after: Index, rs: Refs, uri: Uri) {
    && NoEmptyList(after)
    && forall name ::
         At(after, name) == if Named(rs, name) == [] then At(before, name) else Without(At(before, name), uri)
  }

  function RetainAt(m: Index, name: string, uri: Uri): Index {
    if name !in m then m
    else if Without(m[name], uri) == [] then m - {name}
    else m[name := Without(m[name], uri)]
  }

  lemma RetainAtKey(m: Index, name: string, uri: Uri, key: string)
    ensures At(RetainAt(m, name, uri), key) == if key == name then Without(At(m, key), uri) else At(m, key)
  {
  }

  lemma RetainPurgesNext(before: Index, after: Index, rs: Refs, r: SymbolRef, uri: Uri)
    requires PurgedFor(before, after, rs, uri)
    ensures PurgedFor(before, RetainAt(after, r.name, uri), rs + [r], uri)
  {
    forall name
      ensures At(RetainAt(after, r.name, uri), name) ==
              if Named(rs + [r], name) == [] then At(before, name) else Without(At(before, name), uri)
    {
      NamedSnoc(rs, r, name);
      RetainAtKey(after, r.name, uri, name);
      WithoutTwice(At(before, name), uri);
    }
  }

  /** Purging the names a document uses purges them all. */
  lemma PurgedForAll(byDocument: Index, byName: Index, after: Index, uri: Uri)
    requires InStep(byDocument, byName) && PurgedFor(byName, after, At(byDocument, uri), uri)
    ensures after == Purged(byName, uri)
  {
    forall name ensures At(after, name) == At(Purged(byName, uri), name) {
      PurgedAt(byName, uri, name);
      if Named(At(byDocument, uri), name) == [] {
        PurgeTouchesItsNames(byDocument, byName, uri, name);
      }
    }
    SameLists(after, Purged(byName, uri));
  }

  /** What indexing documents makes of their symbols. */
  function Flattened(latest: map<Uri, seq<Symbol>>): Index {
    map uri | uri in latest :: FlattenAll(latest[uri], uri)
  }

  lemma FlattenedNext(latest: map<Uri, seq<Symbol>>, uri: Uri, symbols: seq<Symbol>)
    ensures Flattened(latest[uri := symbols]) == Flattened(latest)[uri := FlattenAll(symbols, uri)]
    ensures Flattened(latest - {uri}) == Flattened(latest) - {uri}
  {
  }

  class SymbolIndex {
    var byDocument: Index
    var byName: Index
    var references: Index
    /** What each document's latest indexing gave. */
    ghost var latest: map<Uri, seq<Symbol>>

    ghost predicate Valid()
      reads this
    {
      && InStep(byDocument, byName) && NoEmptyList(references)
      && byDocument == Flattened(latest)
    }

    constructor ()
      ensures Valid() && latest == map[] && references == map[]
    {
      byDocument, byName, references, latest := map[], map[], map[], map[];
    }

    method RemoveDocument(uri: Uri)
      requires Valid()
      modifies this
      ensures Valid() && latest == old(latest) - {uri}
      ensures byName == Purged(old(byName), uri) && references == Purged(old(references), uri)
    {
      PurgeKeepsStep(byDocument, byName, uri);
      FlattenedNext(latest, uri, []);
      if uri in byDocument {
        RetainNames(uri, byDocument[uri]);
        PurgedForAll(byDocument, old(byName), byName, uri);
      } else {
        NothingToPurge(byDocument, byName, uri);
      }
      byDocument := byDocument - {uri};
      references := map key | key in references && Without(references[key], uri) != [] :: Without(references[key], uri);
      latest := latest - {uri};
    }

    /** Takes the document's references out of every name it uses. */
    method RetainNames(uri: Uri, docRefs: Refs)
      requires NoEmptyList(byName)
      modifies this`byName
      ensures PurgedFor(old(byName), byName, docRefs, uri)
    {
      var i := 0;
      assert docRefs[..0] == [];
      while i < |docRefs|
        invariant 0 <= i <= |docRefs|
        invariant PurgedFor(old(byName), byName, docRefs[..i], uri)
      {
        assert docRefs[..i + 1] == docRefs[..i] + [docRefs[i]];
        RetainPurgesNext(old(byName), byName, docRefs[..i], docRefs[i], uri);
        RetainName(docRefs[i].name, uri);
        i := i + 1;
      }
      assert docRefs[..|docRefs|] == docRefs;
    }

    method RetainName(name: string, uri: Uri)
      modifies this`byName
      ensures byName == RetainAt(old(byName), name, uri)
    {
      if name in byName {
        var kept := Without(byName[name], uri);
        byName := if kept == [] then byName - {name} else byName[name := kept];
      }
    }

    /** Replaces what the index knows of a document by the symbols given. */
    method IndexDocument(uri: Uri, symbols: seq<Symbol>)
      requires Valid()
      modifies this
      ensures Valid() && latest == old(latest)[uri := symbols]
      ensures references == Purged(old(references), uri)
      ensures Extended(Purged(old(byName), uri), byName, FlattenAll(symbols, uri))
    {
      RemoveDocument(uri);
      var refs := FlattenAll(symbols, uri);
      FlattenAllIn(symbols, uri);
      FlattenedNext(old(latest), uri, symbols);
      FlattenedNext(latest, uri, symbols);
      IndexNames(uri, refs);
      byDocument := byDocument[uri := refs];
      latest := latest[uri := symbols];
    }

    /** Adds each reference to the list of its name. */
    method IndexNames(uri: Uri, refs: Refs)
      requires InStep(byDocument, byName) && uri !in byDocument && AllIn(refs, uri)
      modifies this`byName
      ensures InStep(byDocument[uri := refs], byName)
      ensures Extended(old(byName), byName, refs)
    {
      EmptyDocumentInStep(byDocument, byName, uri);
      var i := 0;
      assert refs[..0] == [];
      while i < |refs|
        invariant 0 <= i <= |refs|
        invariant InStep(byDocument[uri := refs[..i]], byName)
        invariant Extended(old(byName), byName, refs[..i])
      {
        var r := refs[i];
        assert refs[..i + 1] == refs[..i] + [r];
        AddKeepsStep(byDocument[uri := refs[..i]], byName, r);
        PushedDocument(byDocument, uri, refs[..i], r);
        PushExtends(old(byName), byName, refs[..i], r);
        byName := byName[r.name := At(byName, r.name) + [r]];
        i := i + 1;
      }
      assert refs[..|refs|] == refs;
    }

    method AddReference(name: string, reference: SymbolRef)
      requires Valid()
      modifies this`references
      ensures Valid()
      ensures references == old(references)[name := At(old(references), name) + [reference]]
    {
      references := references[name := At(references, name) + [reference]];
    }

    /** The definitions of a name: for each document, those its latest indexing gave. */
    method FindDefinitions(name: string) returns (found: Refs)
      requires Valid()
      ensures forall uri: Uri ::
                Of(found, uri) == if uri in latest then Named(FlattenAll(latest[uri], uri), name) else []
      ensures forall uri: Uri, way: Way :: uri in latest && SymbolNamed(latest[uri], way, name) ==>
                RefOf(Descend(latest[uri], way).value, uri) in found
      ensures forall r :: r in found ==>
                r.uri in latest &&
                exists way: Way :: SymbolNamed(latest[r.uri], way, name) && IsRef(latest[r.uri], way, r)
    {
      found := At(byName, name);
      forall uri: Uri
        ensures Of(found, uri) == if uri in latest then Named(FlattenAll(latest[uri], uri), name) else []
      {
        assert Agree(At(byDocument, uri), At(byName, name), uri, name);
      }
      forall uri: Uri, way: Way | uri in latest && SymbolNamed(latest[uri], way, name)
        ensures RefOf(Descend(latest[uri], way).value, uri) in found
      {
        NamedSymbolIsFound(latest[uri], uri, way, name, found);
      }
      forall r | r in found
        ensures r.uri in latest
        ensures exists way: Way :: SymbolNamed(latest[r.uri], way, name) && IsRef(latest[r.uri], way, r)
      {
        InItsDocument(found, r);
        var way := FoundIsNamedSymbol(latest[r.uri], r, name);
      }
    }

    /** How many documents, symbols and references the index holds. */
    method Stats() returns (documents: nat, symbols: nat, uses: nat)
      requires Valid()
      ensures documents == |latest|
      ensures symbols == |All(byName)| == |All(byDocument)|
      ensures uses == |All(references)|
    {
      SameReferences(byDocument, byName);
      assert byDocument.Keys == latest.Keys;
      documents := |byDocument|;
      symbols := SumOfLengths(byName);
      uses := SumOfLengths(references);
    }
  }

  lemma PushedDocument(m: Index, uri: Uri, rs: Refs, r: SymbolRef)
    ensures Pushed(m[uri := rs], uri, r) == m[uri := rs + [r]]
  {
  }

  /** Indexes without empty lists are the same when they list the same under each key. */
  lemma SameLists(a: Index, b: Index)
    requires NoEmptyList(a) && NoEmptyList(b)
    requires forall key :: At(a, key) == At(b, key)
    ensures a == b
  {
    forall key ensures key in a <==> key in b {
      assert At(a, key) == At(b, key);
    }
    forall key | key in a ensures a[key] == b[key] {
      assert At(a, key) == At(b, key);
    }
  }

  lemma NothingToPurge(byDocument: Index, byName: Index, uri: Uri)
    requires InStep(byDocument, byName) && uri !in byDocument
    ensures Purged(byName, uri) == byName
  {
    forall name ensures At(Purged(byName, uri), name) == At(byName, name) {
      PurgedAt(byName, uri, name);
      PurgeTouchesItsNames(byDocument, byName, uri, name);
    }
    SameLists(Purged(byName, uri), byName);
  }

  lemma EmptyDocumentInStep(byDocument: Index, byName: Index, uri: Uri)
    requires InStep(byDocument, byName) && uri !in byDocument
    ensures InStep(byDocument[uri := []], byName)
  {
    var d := byDocument[uri := []];
    forall name: string, u: Uri ensures Agree(At(d, u), At(byName, name), u, name) {
      assert Agree(At(byDocument, u), At(byName, name), u, name);
    }
  }
}
