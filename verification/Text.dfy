/**
 A text addressed by character: walking to a position, jumping to one through
 crumbs, and the shared, cached `Text` that the tree-walker holds.
 */
module Text {
  import opened Options
  import opened Utf8

  // --------------------------------------------------------------------------
  // Positions in a text
  // --------------------------------------------------------------------------

  /** A byte offset at which a character starts, or the end. */
  ghost predicate Boundary(s: string, b: nat) {
    exists i :: 0 <= i <= |s| && Offset(s, i) == b
  }

  /** How many characters end at or before byte `b`. */
  function CharsBefore(s: string, b: nat): (i: nat)
    ensures i <= |s|
  {
    if s == [] || b < |Encode(s[0])| then 0 else 1 + CharsBefore(s[1..], b - |Encode(s[0])|)
  }

  lemma {:induction false} CharsBeforeOffset(s: string, i: nat)
    requires i <= |s|
    ensures CharsBefore(s, Offset(s, i)) == i
  {
    if s != [] {
      EncodeShape(s[0]);
    }
    if i > 0 {
      OffsetSum(s, 1, i - 1);
      OffsetStep(s, 0);
      CharsBeforeOffset(s[1..], i - 1);
    }
  }

  /** The text between two byte offsets, which must be character boundaries. */
  function Slice(s: string, a: nat, b: nat): string
    requires Boundary(s, a) && Boundary(s, b) && a <= b
  {
    var i, j := CharsBefore(s, a), CharsBefore(s, b);
    if i <= j then s[i..j] else []
  }

  lemma SliceIsChars(s: string, i: nat, j: nat)
    requires i <= j <= |s|
    ensures Boundary(s, Offset(s, i)) && Boundary(s, Offset(s, j)) && Offset(s, i) <= Offset(s, j)
    ensures Slice(s, Offset(s, i), Offset(s, j)) == s[i..j]
  {
    OffsetMonotone(s, i, j);
    CharsBeforeOffset(s, i);
    CharsBeforeOffset(s, j);
  }

  /** How many characters: the byte length of an ASCII text, a count otherwise. */
  function CharLen(s: string): (n: nat)
    ensures n == |s|
  {
    AsciiIffOneByteEach(s);
    if IsAscii(s) then |Bytes(s)| else |s|
  }

  /** The characters from `a` up to `b`, found by walking from the start. */
  method CharRange(s: string, a: nat, b: nat) returns (r: string)
    requires a <= b <= |s|
    ensures r == s[a..b]
  {
    SliceIsChars(s, a, b);
    if IsAscii(s) {
      AsciiOffset(s, a);
      AsciiOffset(s, b);
      return Slice(s, a, b);
    }
    var start: Option<nat> := None;
    var seen := 0;
    var at := 0;
    var i := 0;
    while i < |s|
      invariant i <= |s| && seen == i && at == Offset(s, i)
      invariant i <= b
      invariant start == if a < i then Some(Offset(s, a)) else None
    {
      if i == a {
        start := Some(at);
      }
      if i == b {
        return Slice(s, start.value, at);
      }
      seen := i + 1;
      OffsetStep(s, i);
      at := at + |Encode(s[i])|;
      i := i + 1;
    }
    assert s[..|s|] == s;
    var from := if start.Some? then start.value else |Bytes(s)|;
    return Slice(s, from, |Bytes(s)|);
  }

  // --------------------------------------------------------------------------
  // Crumbs
  // --------------------------------------------------------------------------

  const CRUMB_EVERY := 64

  /** The byte where every 64th character from `i` on starts. */
  function CrumbsFrom(s: string, i: nat): seq<nat>
    decreases |s| - i
  {
    if i >= |s| then [] else [Offset(s, i)] + CrumbsFrom(s, i + CRUMB_EVERY)
  }

  function CrumbsOf(s: string): seq<nat> {
    CrumbsFrom(s, 0)
  }

  lemma {:induction false} CrumbAt(s: string, i: nat, k: nat)
    ensures k < |CrumbsFrom(s, i)| <==> i + CRUMB_EVERY * k < |s|
    ensures k < |CrumbsFrom(s, i)| ==> CrumbsFrom(s, i)[k] == Offset(s, i + CRUMB_EVERY * k)
    decreases k
  {
    if i < |s| && k > 0 {
      CrumbAt(s, i + CRUMB_EVERY, k - 1);
    }
  }

  /** The byte where character `k` of `s` starts, counted within `s`. */
  function NthOffset(s: string, k: nat): Option<nat> {
    if k < |s| then Some(Offset(s, k)) else None
  }

  /** The byte `m` characters after `from`, where `s` can be cut; the end when the text stops before. */
  function WalkFrom(s: string, from: nat, m: nat): nat
    requires Boundary(s, from)
  {
    match NthOffset(s[CharsBefore(s, from)..], m)
    case Some(b) => from + b
    case None => |Bytes(s)|
  }

  /** No crumb points inside a character, so the text can be cut at each. */
  ghost predicate Boundaries(s: string, crumbs: seq<nat>) {
    forall k :: 0 <= k < |crumbs| ==> Boundary(s, crumbs[k])
  }

  /** The byte where character `i` starts, found from the crumb before it. */
  function ByteFromCrumb(s: string, crumbs: seq<nat>, i: nat): nat
    requires Boundaries(s, crumbs)
  {
    var k := i / CRUMB_EVERY;
    if k < |crumbs| then WalkFrom(s, crumbs[k], i % CRUMB_EVERY) else |Bytes(s)|
  }

  lemma CrumbsAreBoundaries(s: string)
    ensures Boundaries(s, CrumbsOf(s))
  {
    forall k | 0 <= k < |CrumbsOf(s)| ensures Boundary(s, CrumbsOf(s)[k]) {
      CrumbAt(s, 0, k);
    }
  }

  lemma WalkFromIsOffset(s: string, n: nat, m: nat)
    requires n < |s|
    ensures Boundary(s, Offset(s, n))
    ensures WalkFrom(s, Offset(s, n), m) == if n + m < |s| then Offset(s, n + m) else |Bytes(s)|
  {
    CharsBeforeOffset(s, n);
    if n + m < |s| {
      OffsetSum(s, n, m);
    }
  }

  lemma OffsetEnd(s: string)
    ensures Offset(s, |s|) == |Bytes(s)|
  {
    assert s[..|s|] == s;
  }

  /** Jumping to a crumb and walking on arrives where walking from the start does. */
  lemma ByteFromCrumbIsOffset(s: string, i: nat)
    ensures Boundaries(s, CrumbsOf(s))
    ensures ByteFromCrumb(s, CrumbsOf(s), i) == if i <= |s| then Offset(s, i) else |Bytes(s)|
  {
    var k, m := i / CRUMB_EVERY, i % CRUMB_EVERY;
    CrumbsAreBoundaries(s);
    CrumbAt(s, 0, k);
    FromCrumb(s, CrumbsOf(s), k, CRUMB_EVERY * k, m);
  }

  lemma FromCrumb(s: string, crumbs: seq<nat>, k: nat, n: nat, m: nat)
    requires Boundaries(s, crumbs) && (k < |crumbs| <==> n < |s|)
    requires k < |crumbs| ==> crumbs[k] == Offset(s, n)
    ensures (if k < |crumbs| then WalkFrom(s, crumbs[k], m) else |Bytes(s)|)
            == if n + m <= |s| then Offset(s, n + m) else |Bytes(s)|
  {
    OffsetEnd(s);
    if k < |crumbs| {
      WalkFromIsOffset(s, n, m);
    }
  }

  // --------------------------------------------------------------------------
  // The shared text
  // --------------------------------------------------------------------------

  /** A buffer and what it has been asked about itself. */
  class TextInner {
    var s: string
    var chars: Option<nat>
    var crumbs: Option<seq<nat>>

    constructor (text: string)
      ensures s == text && Valid()
    {
      s, chars, crumbs := text, None, None;
    }

    /** What is remembered is about the current text. */
    ghost predicate Valid()
      reads this
    {
      && (chars.Some? ==> chars.value == |s|)
      && (crumbs.Some? ==> crumbs.value == CrumbsOf(s))
    }
  }

  type Handle = nat

  /** What a caller can ask of, or do to, the texts it holds. */
  datatype Request =
    | New(text: string)
    | Clone(of: Handle)
    | Drop(handle: Handle)
    | Edit(handle: Handle, text: string)
    | CharLength(handle: Handle)
    | CharAt(handle: Handle, i: nat)
    | Range(handle: Handle, a: nat, b: nat)
    | IntoString(handle: Handle)

  datatype Answer =
    | Done
    | Made(handle: Handle)
    | Length(n: nat)
    | Character(c: Option<char>)
    | Piece(text: string)

  /** Plain strings, one for each handle. */
  type Strings = map<Handle, string>

  predicate Allowed(m: Strings, r: Request) {
    match r
    case New(_) => true
    case Clone(h) => h in m
    case Range(h, a, b) => h in m && a <= b <= |m[h]|
    case _ => r.handle in m
  }

  /** The meaning of a request on plain strings that share nothing. */
  function Meaning(m: Strings, next: Handle, r: Request): (Strings, Answer)
    requires Allowed(m, r)
  {
    match r
    case New(t) => (m[next := t], Made(next))
    case Clone(h) => (m[next := m[h]], Made(next))
    case Drop(h) => (m - {h}, Done)
    case Edit(h, t) => (m[h := t], Done)
    case CharLength(h) => (m, Length(|m[h]|))
    case CharAt(h, i) => (m, Character(if i < |m[h]| then Some(m[h][i]) else None))
    case Range(h, a, b) => (m, Piece(m[h][a..b]))
    case IntoString(h) => (m - {h}, Piece(m[h]))
  }

  function NextAfter(next: Handle, r: Request): Handle {
    if r.New? || r.Clone? then next + 1 else next
  }

  predicate AllAllowed(m: Strings, next: Handle, rs: seq<Request>)
    decreases |rs|
  {
    rs == [] ||
    (Allowed(m, rs[0]) && AllAllowed(Meaning(m, next, rs[0]).0, NextAfter(next, rs[0]), rs[1..]))
  }

  /** The answers that plain strings give to a run of requests. */
  function Answers(m: Strings, next: Handle, rs: seq<Request>): seq<Answer>
    requires AllAllowed(m, next, rs)
    decreases |rs|
  {
    if rs == [] then []
    else [Meaning(m, next, rs[0]).1] + Answers(Meaning(m, next, rs[0]).0, NextAfter(next, rs[0]), rs[1..])
  }

  /** The handles of a program; handles may share a buffer. */
  class Texts {
    var slots: map<Handle, TextInner>
    var next: Handle

    constructor ()
      ensures Valid() && slots == map[] && next == 0 && View() == map[]
    {
      slots, next := map[], 0;
    }

    ghost function Buffers(): set<TextInner>
      reads this
    {
      slots.Values
    }

    ghost predicate Valid()
      reads this, Buffers()
    {
      forall h :: h in slots ==> h < next && slots[h].Valid()
    }

    /** Each handle's text, as a plain string. */
    ghost function View(): Strings
      reads this, Buffers()
    {
      map h | h in slots :: slots[h].s
    }

    method NewText(text: string) returns (h: Handle)
      requires Valid()
      modifies this
      ensures Valid() && h == old(next) && next == old(next) + 1
      ensures h in slots && fresh(slots[h]) && slots == old(slots)[h := slots[h]]
      ensures View() == old(View())[h := text]
    {
      var inner := new TextInner(text);
      h := next;
      slots := slots[h := inner];
      next := next + 1;
    }

    method CloneText(of: Handle) returns (h: Handle)
      requires Valid() && of in slots
      modifies this
      ensures Valid() && h == old(next) && next == old(next) + 1
      ensures slots == old(slots)[h := old(slots)[of]]
      ensures View() == old(View())[h := old(View())[of]]
    {
      h := next;
      slots := slots[h := slots[of]];
      next := next + 1;
    }

    method DropText(h: Handle)
      requires Valid() && h in slots
      modifies this`slots
      ensures Valid() && slots == old(slots) - {h} && View() == old(View()) - {h}
    {
      slots := slots - {h};
    }

    predicate SoleOwner(h: Handle)
      requires h in slots
      reads this
    {
      forall k | k in slots :: k != h ==> slots[k] != slots[h]
    }

    /** Writes in place for a sole owner and into a copy otherwise; no sharer sees it. */
    method EditText(h: Handle, text: string)
      requires Valid() && h in slots
      modifies this`slots, slots[h]
      ensures Valid() && View() == old(View())[h := text]
      ensures h in slots && slots == old(slots)[h := slots[h]]
      ensures if old(SoleOwner(h)) then slots == old(slots) else fresh(slots[h])
    {
      if !SoleOwner(h) {
        var copy := new TextInner(slots[h].s);
        slots := slots[h := copy];
      }
      var inner := slots[h];
      inner.chars := None;
      inner.crumbs := None;
      inner.s := text;
    }

    method CharLenOf(h: Handle) returns (n: nat)
      requires Valid() && h in slots
      modifies slots[h]
      ensures Valid() && View() == old(View())
      ensures slots[h].s == old(slots[h].s)
      ensures n == |slots[h].s|
    {
      var inner := slots[h];
      if inner.chars.Some? {
        return inner.chars.value;
      }
      n := CharLen(inner.s);
      inner.chars := Some(n);
    }

    method CharByte(h: Handle, i: nat) returns (b: nat)
      requires Valid() && h in slots
      modifies slots[h]
      ensures Valid() && View() == old(View())
      ensures slots[h].s == old(slots[h].s)
      ensures b == if i <= |slots[h].s| then Offset(slots[h].s, i) else |Bytes(slots[h].s)|
    {
      var inner := slots[h];
      var n := CharLenOf(h);
      assert inner.s[..|inner.s|] == inner.s;
      if i >= n {
        return |Bytes(inner.s)|;
      }
      AsciiIffOneByteEach(inner.s);
      if n == |Bytes(inner.s)| {
        AsciiOffset(inner.s, i);
        return i;
      }
      if inner.crumbs.None? {
        inner.crumbs := Some(CrumbsOf(inner.s));
      }
      ByteFromCrumbIsOffset(inner.s, i);
      b := ByteFromCrumb(inner.s, inner.crumbs.value, i);
    }

    method CharAtOf(h: Handle, i: nat) returns (c: Option<char>)
      requires Valid() && h in slots
      modifies slots[h]
      ensures Valid() && View() == old(View())
      ensures slots[h].s == old(slots[h].s)
      ensures c == if i < |slots[h].s| then Some(slots[h].s[i]) else None
    {
      var n := CharLenOf(h);
      if i >= n {
        return None;
      }
      var b := CharByte(h, i);
      SliceIsChars(slots[h].s, i, |slots[h].s|);
      assert slots[h].s[..n] == slots[h].s;
      var rest := Slice(slots[h].s, b, |Bytes(slots[h].s)|);
      c := Some(rest[0]);
    }

    method CharRangeOf(h: Handle, a: nat, b: nat) returns (r: string)
      requires Valid() && h in slots && a <= b <= |slots[h].s|
      modifies slots[h]
      ensures Valid() && View() == old(View())
      ensures slots[h].s == old(slots[h].s)
      ensures r == slots[h].s[a..b]
    {
      var from := CharByte(h, a);
      var to := CharByte(h, b);
      SliceIsChars(slots[h].s, a, b);
      r := Slice(slots[h].s, from, to);
    }

    method IntoStringOf(h: Handle) returns (s: string)
      requires Valid() && h in slots
      modifies this`slots
      ensures Valid() && slots == old(slots) - {h}
      ensures s == old(View())[h] && View() == old(View()) - {h}
    {
      s := slots[h].s;
      slots := slots - {h};
    }

    method Perform(r: Request) returns (a: Answer)
      requires Valid() && Allowed(View(), r)
      modifies this, Buffers()
      ensures Valid() && fresh(Buffers() - old(Buffers()))
      ensures next == NextAfter(old(next), r)
      ensures (View(), a) == Meaning(old(View()), old(next), r)
    {
      match r
      case New(t) =>
        var h := NewText(t);
        a := Made(h);
      case Clone(of) =>
        var h := CloneText(of);
        a := Made(h);
      case Drop(h) =>
        DropText(h);
        a := Done;
      case Edit(h, t) =>
        EditText(h, t);
        a := Done;
      case CharLength(h) =>
        var n := CharLenOf(h);
        a := Length(n);
      case CharAt(h, i) =>
        var c := CharAtOf(h, i);
        a := Character(c);
      case Range(h, i, j) =>
        var t := CharRangeOf(h, i, j);
        a := Piece(t);
      case IntoString(h) =>
        var t := IntoStringOf(h);
        a := Piece(t);
    }

    /** Over every run of requests, shared and cached texts answer as plain strings do. */
    method Run(rs: seq<Request>) returns (answers: seq<Answer>)
      requires Valid() && AllAllowed(View(), next, rs)
      modifies this, Buffers()
      ensures Valid()
      ensures answers == Answers(old(View()), old(next), rs)
    {
      answers := [];
      var i := 0;
      while i < |rs|
        invariant 0 <= i <= |rs| && Valid()
        invariant fresh(Buffers() - old(Buffers()))
        invariant AllAllowed(View(), next, rs[i..])
        invariant answers + Answers(View(), next, rs[i..]) == Answers(old(View()), old(next), rs)
      {
        assert rs[i..][0] == rs[i] && rs[i..][1..] == rs[i + 1..];
        ghost var before, n := View(), next;
        var a := Perform(rs[i]);
        assert Answers(before, n, rs[i..]) == [a] + Answers(View(), next, rs[i + 1..]);
        answers := answers + [a];
        i := i + 1;
      }
    }
  }
}
