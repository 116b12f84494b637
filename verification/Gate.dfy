/**
 The statement-shape check of the formatter's safety gate: two programs are
 compared by the depth and kind of their statements, listed in pre-order.
 */
module Gate {
  import opened Options
  import opened Syntax
  import Layout

  /** Which kind of statement a statement is. */
  datatype Variant =
    | PlainVariant(kind: PlainKind)
    | IfVariant | LoopVariant | TryVariant | FunctionVariant | MatchVariant | TuiVariant

  function Discriminant(s: Statement): Variant {
    match s
    case Plain(kind, _, _) => PlainVariant(kind)
    case If(_, _, _, _, _) => IfVariant
    case Loop(_, _, _) => LoopVariant
    case Try(_, _, _, _) => TryVariant
    case FunctionDecl(_, _, _) => FunctionVariant
    case Match(_) => MatchVariant
    case TuiBlock(_, _) => TuiVariant
  }

  type Shape = seq<(nat, Variant)>

  /** A statement's kind over the statements of its blocks, in order. */
  datatype Tree = Node(variant: Variant, children: seq<Tree>)

  function TreeOf(s: Statement): Tree
    decreases s
  {
    Node(Discriminant(s),
         match s
         case Plain(_, _, _) => []
         case If(_, t, elifs, els, _) =>
           BlockTrees(t) + ElseIfTrees(elifs) + (if els.Some? then BlockTrees(els.value) else [])
         case Loop(_, b, _) => BlockTrees(b)
         case Try(t, catches, fin, _) =>
           BlockTrees(t) + CatchTrees(catches) + (if fin.Some? then BlockTrees(fin.value) else [])
         case FunctionDecl(_, b, _) => BlockTrees(b)
         case Match(m) => CaseTrees(m.cases)
         case TuiBlock(b, _) => BlockTrees(b))
  }

  function BlockTrees(b: Block): seq<Tree>
    decreases b, 1
  {
    Forest(b.statements)
  }

  function Forest(ss: seq<Statement>): seq<Tree>
    decreases ss
  {
    if ss == [] then [] else [TreeOf(ss[0])] + Forest(ss[1..])
  }

  function ElseIfTrees(es: seq<ElseIf>): seq<Tree>
    decreases es
  {
    if es == [] then [] else BlockTrees(es[0].block) + ElseIfTrees(es[1..])
  }

  function CatchTrees(cs: seq<Catch>): seq<Tree>
    decreases cs
  {
    if cs == [] then []
    else assert cs[0].block < cs[0]; BlockTrees(cs[0].block) + CatchTrees(cs[1..])
  }

  function CaseTrees(cs: seq<MatchCase>): seq<Tree>
    decreases cs
  {
    if cs == [] then []
    else (if cs[0].block.Some? then BlockTrees(cs[0].block.value) else []) + CaseTrees(cs[1..])
  }

  /** A forest listed in pre-order, each node with its depth. */
  function PreOrder(f: seq<Tree>, depth: nat): Shape
    decreases f
  {
    if f == [] then []
    else [(depth, f[0].variant)] + (PreOrder(f[0].children, depth + 1) + PreOrder(f[1..], depth))
  }

  /** A forest listed in pre-order behind what `acc` already lists. */
  function Onto(acc: Shape, f: seq<Tree>, depth: nat): Shape
    decreases f
  {
    if f == [] then acc
    else Onto(Onto(acc + [(depth, f[0].variant)], f[0].children, depth + 1), f[1..], depth)
  }

  lemma {:induction false} OntoIsPreOrder(acc: Shape, f: seq<Tree>, depth: nat)
    ensures Onto(acc, f, depth) == acc + PreOrder(f, depth)
    decreases f
  {
    if f != [] {
      var head, inside, after := [(depth, f[0].variant)], PreOrder(f[0].children, depth + 1), PreOrder(f[1..], depth);
      OntoIsPreOrder(acc + head, f[0].children, depth + 1);
      OntoIsPreOrder((acc + head) + inside, f[1..], depth);
      assert (acc + head) + inside + after == acc + (head + (inside + after));
    }
  }

  lemma {:induction false} OntoConcat(acc: Shape, f: seq<Tree>, g: seq<Tree>, depth: nat)
    ensures Onto(acc, f + g, depth) == Onto(Onto(acc, f, depth), g, depth)
    decreases |f|
  {
    if f == [] {
      assert f + g == g;
    } else {
      assert (f + g)[0] == f[0] && (f + g)[1..] == f[1..] + g;
      OntoConcat(Onto(acc + [(depth, f[0].variant)], f[0].children, depth + 1), f[1..], g, depth);
    }
  }

  // --------------------------------------------------------------------------
  // The collector
  // --------------------------------------------------------------------------

  /** The shape being collected; every statement is pushed onto one shared list. */
  class Collector {
    var out: Shape

    constructor ()
      ensures out == []
    {
      out := [];
    }

    method CollectBlock(block: Block, depth: nat)
      modifies this
      ensures out == Onto(old(out), BlockTrees(block), depth)
      decreases block, 1
    {
      CollectStatements(block.statements, depth);
    }

    method CollectStatements(ss: seq<Statement>, depth: nat)
      modifies this
      ensures out == Onto(old(out), Forest(ss), depth)
      decreases ss
    {
      var i := 0;
      while i < |ss|
        invariant 0 <= i <= |ss|
        invariant Onto(out, Forest(ss[i..]), depth) == Onto(old(out), Forest(ss), depth)
      {
        assert ss[i..][1..] == ss[i + 1..];
        StatementFirst(out, ss[i..], depth);
        CollectStatement(ss[i], depth);
        i := i + 1;
      }
    }

    method CollectStatement(s: Statement, depth: nat)
      modifies this
      ensures out == Onto(old(out) + [(depth, Discriminant(s))], TreeOf(s).children, depth + 1)
      decreases s, 1
    {
      out := out + [(depth, Discriminant(s))];
      match s
      case Plain(_, _, _) =>
      case If(_, _, _, _, _) => CollectIf(s, depth + 1);
      case Loop(_, b, _) => CollectBlock(b, depth + 1);
      case Try(_, _, _, _) => CollectTry(s, depth + 1);
      case FunctionDecl(_, b, _) => CollectBlock(b, depth + 1);
      case Match(m) => CollectCases(m.cases, depth + 1);
      case TuiBlock(b, _) => CollectBlock(b, depth + 1);
    }

    method CollectIf(s: Statement, depth: nat)
      requires s.If?
      modifies this
      ensures out == Onto(old(out), TreeOf(s).children, depth)
      decreases s, 0
    {
      ghost var before := out;
      CollectBlock(s.thenBlock, depth);
      CollectElseIfs(s.elseIfs, depth);
      if s.elseBlock.Some? {
        CollectBlock(s.elseBlock.value, depth);
      }
      ThreeParts(before, BlockTrees(s.thenBlock), ElseIfTrees(s.elseIfs),
                 if s.elseBlock.Some? then BlockTrees(s.elseBlock.value) else [], depth);
    }

    method CollectTry(s: Statement, depth: nat)
      requires s.Try?
      modifies this
      ensures out == Onto(old(out), TreeOf(s).children, depth)
      decreases s, 0
    {
      ghost var before := out;
      CollectBlock(s.tryBlock, depth);
      CollectCatches(s.catches, depth);
      if s.finallyBlock.Some? {
        CollectBlock(s.finallyBlock.value, depth);
      }
      ThreeParts(before, BlockTrees(s.tryBlock), CatchTrees(s.catches),
                 if s.finallyBlock.Some? then BlockTrees(s.finallyBlock.value) else [], depth);
    }

    method CollectElseIfs(es: seq<ElseIf>, depth: nat)
      modifies this
      ensures out == Onto(old(out), ElseIfTrees(es), depth)
      decreases es
    {
      var i := 0;
      while i < |es|
        invariant 0 <= i <= |es|
        invariant Onto(out, ElseIfTrees(es[i..]), depth) == Onto(old(out), ElseIfTrees(es), depth)
      {
        assert es[i..][1..] == es[i + 1..];
        OntoConcat(out, BlockTrees(es[i].block), ElseIfTrees(es[i + 1..]), depth);
        CollectBlock(es[i].block, depth);
        i := i + 1;
      }
    }

    method CollectCatches(cs: seq<Catch>, depth: nat)
      modifies this
      ensures out == Onto(old(out), CatchTrees(cs), depth)
      decreases cs
    {
      var i := 0;
      while i < |cs|
        invariant 0 <= i <= |cs|
        invariant Onto(out, CatchTrees(cs[i..]), depth) == Onto(old(out), CatchTrees(cs), depth)
      {
        assert cs[i..][1..] == cs[i + 1..];
        OntoConcat(out, BlockTrees(cs[i].block), CatchTrees(cs[i + 1..]), depth);
        assert cs[i].block < cs[i];
        CollectBlock(cs[i].block, depth);
        i := i + 1;
      }
    }

    method CollectCases(cs: seq<MatchCase>, depth: nat)
      modifies this
      ensures out == Onto(old(out), CaseTrees(cs), depth)
      decreases cs
    {
      var i := 0;
      while i < |cs|
        invariant 0 <= i <= |cs|
        invariant Onto(out, CaseTrees(cs[i..]), depth) == Onto(old(out), CaseTrees(cs), depth)
      {
        assert cs[i..][1..] == cs[i + 1..];
        CaseFirst(out, cs[i..], depth);
        if cs[i].block.Some? {
          CollectBlock(cs[i].block.value, depth);
        }
        i := i + 1;
      }
    }
  }

  lemma StatementFirst(acc: Shape, ss: seq<Statement>, depth: nat)
    requires ss != []
    ensures Onto(acc, Forest(ss), depth)
            == Onto(Onto(acc + [(depth, Discriminant(ss[0]))], TreeOf(ss[0]).children, depth + 1),
                    Forest(ss[1..]), depth)
  {
    assert Forest(ss)[0] == TreeOf(ss[0]) && Forest(ss)[1..] == Forest(ss[1..]);
  }

  lemma CaseFirst(acc: Shape, cs: seq<MatchCase>, depth: nat)
    requires cs != []
    ensures Onto(acc, CaseTrees(cs), depth)
            == Onto(if cs[0].block.Some? then Onto(acc, BlockTrees(cs[0].block.value), depth) else acc,
                    CaseTrees(cs[1..]), depth)
  {
    if cs[0].block.Some? {
      OntoConcat(acc, BlockTrees(cs[0].block.value), CaseTrees(cs[1..]), depth);
    } else {
      assert [] + CaseTrees(cs[1..]) == CaseTrees(cs[1..]);
    }
  }

  lemma ThreeParts(acc: Shape, a: seq<Tree>, b: seq<Tree>, c: seq<Tree>, depth: nat)
    ensures Onto(acc, a + b + c, depth) == Onto(Onto(Onto(acc, a, depth), b, depth), c, depth)
  {
    OntoConcat(acc, a + b, c, depth);
    OntoConcat(acc, a, b, depth);
  }

  /** The shape of a whole program. */
  method ProgramShape(p: Program) returns (shape: Shape)
    ensures shape == PreOrder(Forest(p.statements), 0)
  {
    var collector := new Collector();
    collector.CollectStatements(p.statements, 0);
    shape := collector.out;
    OntoIsPreOrder([], Forest(p.statements), 0);
  }

  // --------------------------------------------------------------------------
  // The shape determines the tree
  // --------------------------------------------------------------------------

  lemma {:induction false} PreOrderDepths(f: seq<Tree>, depth: nat)
    ensures forall k :: 0 <= k < |PreOrder(f, depth)| ==> depth <= PreOrder(f, depth)[k].0
    ensures PreOrder(f, depth) != [] ==> PreOrder(f, depth)[0].0 == depth
    decreases f
  {
    if f != [] {
      PreOrderDepths(f[0].children, depth + 1);
      PreOrderDepths(f[1..], depth);
    }
  }

  /** Deeper entries followed by shallower ones split in one place only. */
  lemma SplitUnique(a: Shape, b: Shape, x: Shape, y: Shape, depth: nat)
    requires a + x == b + y
    requires forall k :: 0 <= k < |a| ==> depth < a[k].0
    requires forall k :: 0 <= k < |b| ==> depth < b[k].0
    requires x != [] ==> x[0].0 <= depth
    requires y != [] ==> y[0].0 <= depth
    ensures a == b && x == y
  {
    var whole := a + x;
    assert forall k :: 0 <= k < |a| ==> whole[k] == a[k];
    assert forall k :: 0 <= k < |b| ==> whole[k] == b[k];
    assert |a| < |whole| ==> whole[|a|] == x[0];
    assert |b| < |whole| ==> whole[|b|] == y[0];
    assert a == whole[..|a|] && b == whole[..|b|] && x == whole[|a|..] && y == whole[|b|..];
  }

  lemma PreOrderParts(f: seq<Tree>, g: seq<Tree>, depth: nat)
    requires f != [] && g != [] && PreOrder(f, depth) == PreOrder(g, depth)
    ensures f[0].variant == g[0].variant
    ensures PreOrder(f[0].children, depth + 1) == PreOrder(g[0].children, depth + 1)
    ensures PreOrder(f[1..], depth) == PreOrder(g[1..], depth)
  {
    var a, b := PreOrder(f[0].children, depth + 1), PreOrder(g[0].children, depth + 1);
    var x, y := PreOrder(f[1..], depth), PreOrder(g[1..], depth);
    SameHead((depth, f[0].variant), a + x, (depth, g[0].variant), b + y);
    PreOrderDepths(f[0].children, depth + 1);
    PreOrderDepths(g[0].children, depth + 1);
    PreOrderDepths(f[1..], depth);
    PreOrderDepths(g[1..], depth);
    SplitUnique(a, b, x, y, depth);
  }

  lemma {:induction false} PreOrderInjective(f: seq<Tree>, g: seq<Tree>, depth: nat)
    requires PreOrder(f, depth) == PreOrder(g, depth)
    ensures f == g
    decreases f
  {
    if f != [] && g != [] {
      PreOrderParts(f, g, depth);
      PreOrderInjective(f[0].children, g[0].children, depth + 1);
      PreOrderInjective(f[1..], g[1..], depth);
      assert f == [f[0]] + f[1..] && g == [g[0]] + g[1..];
    }
  }

  lemma SameHead(h: (nat, Variant), x: Shape, k: (nat, Variant), y: Shape)
    requires [h] + x == [k] + y
    ensures h == k && x == y
  {
    assert ([h] + x)[0] == h && ([k] + y)[0] == k;
    assert ([h] + x)[1..] == x && ([k] + y)[1..] == y;
  }

  /** Programs have the same shape exactly when their statement trees are the same. */
  lemma SameShapeIffSameForest(p: Program, q: Program)
    ensures PreOrder(Forest(p.statements), 0) == PreOrder(Forest(q.statements), 0)
            <==> Forest(p.statements) == Forest(q.statements)
  {
    if PreOrder(Forest(p.statements), 0) == PreOrder(Forest(q.statements), 0) {
      PreOrderInjective(Forest(p.statements), Forest(q.statements), 0);
    }
  }

  /** What the shape cannot see: which block of its statement a statement stands in. */
  lemma BlocksOfOneStatementAreNotTold(cond: Code, s: Statement, at: Span)
    ensures var full, empty := Block([s], at), Block([], at);
            TreeOf(If(cond, full, [], Some(empty), at)) == TreeOf(If(cond, empty, [], Some(full), at))
  {
    var full, empty := Block([s], at), Block([], at);
    assert BlockTrees(empty) == [];
    IfChildren(cond, full, empty, at);
    IfChildren(cond, empty, full, at);
  }

  lemma IfChildren(cond: Code, thenBlock: Block, elseBlock: Block, at: Span)
    ensures TreeOf(If(cond, thenBlock, [], Some(elseBlock), at))
            == Node(IfVariant, BlockTrees(thenBlock) + BlockTrees(elseBlock))
  {
    var s := If(cond, thenBlock, [], Some(elseBlock), at);
    assert s.elseIfs == [];
    assert ElseIfTrees(s.elseIfs) == [];
  }

  // --------------------------------------------------------------------------
  // What the shape tells: every statement, at its depth, in every block
  // --------------------------------------------------------------------------

  /** The block stands in the statement: a branch, a body, a clause or an arm of it. */
  ghost predicate BlockOf(b: Block, s: Statement) {
    match s
    case Plain(_, _, _) => false
    case If(_, t, elifs, els, _) =>
      b == t || els == Some(b) || exists i :: 0 <= i < |elifs| && elifs[i].block == b
    case Loop(_, body, _) => b == body
    case Try(t, catches, fin, _) =>
      b == t || fin == Some(b) || exists i :: 0 <= i < |catches| && catches[i].block == b
    case FunctionDecl(_, body, _) => b == body
    case Match(m) => exists i :: 0 <= i < |m.cases| && m.cases[i].block == Some(b)
    case TuiBlock(body, _) => b == body
  }

  /** The statement stands below `d` others in blocks of one another, the outermost being one of `ss`. */
  ghost predicate StandsAt(t: Statement, d: nat, ss: seq<Statement>)
    decreases d
  {
    if d == 0 then t in ss
    else exists s, b :: s in ss && BlockOf(b, s) && StandsAt(t, d - 1, b.statements)
  }

  /** Statements have the same variant exactly when they are of one constructor and, if plain, of one kind. */
  lemma DiscriminantTells(s: Statement, t: Statement)
    ensures Discriminant(s) == Discriminant(t) <==>
            && (s.Plain? <==> t.Plain?) && (s.If? <==> t.If?) && (s.Loop? <==> t.Loop?) && (s.Try? <==> t.Try?)
            && (s.FunctionDecl? <==> t.FunctionDecl?) && (s.Match? <==> t.Match?) && (s.TuiBlock? <==> t.TuiBlock?)
            && (s.Plain? && t.Plain? ==> s.kind == t.kind)
  {
  }

  /** The blocks of a statement, in the order of the source. */
  function Blocks(s: Statement): seq<Block> {
    match s
    case Plain(_, _, _) => []
    case If(_, t, elifs, els, _) => [t] + ElseIfBlocks(elifs) + OptionalBlock(els)
    case Loop(_, b, _) => [b]
    case Try(t, catches, fin, _) => [t] + CatchBlocks(catches) + OptionalBlock(fin)
    case FunctionDecl(_, b, _) => [b]
    case Match(m) => CaseBlocks(m.cases)
    case TuiBlock(b, _) => [b]
  }

  function OptionalBlock(b: Option<Block>): seq<Block> {
    if b.Some? then [b.value] else []
  }

  function ElseIfBlocks(es: seq<ElseIf>): seq<Block> {
    if es == [] then [] else [es[0].block] + ElseIfBlocks(es[1..])
  }

  function CatchBlocks(cs: seq<Catch>): seq<Block> {
    if cs == [] then [] else [cs[0].block] + CatchBlocks(cs[1..])
  }

  function CaseBlocks(cs: seq<MatchCase>): seq<Block> {
    if cs == [] then [] else OptionalBlock(cs[0].block) + CaseBlocks(cs[1..])
  }

  lemma {:induction false} ElseIfMembers(es: seq<ElseIf>)
    ensures forall b :: b in ElseIfBlocks(es) <==> exists i :: 0 <= i < |es| && es[i].block == b
    ensures |ElseIfBlocks(es)| == |es|
  {
    if es != [] {
      ElseIfMembers(es[1..]);
      forall b ensures b in ElseIfBlocks(es) <==> exists i :: 0 <= i < |es| && es[i].block == b {
        if i :| 0 <= i < |es| && es[i].block == b {
          assert i > 0 ==> es[1..][i - 1] == es[i];
        }
        if i :| 0 <= i < |es[1..]| && es[1..][i].block == b {
          assert es[i + 1].block == b;
        }
      }
    }
  }

  lemma {:induction false} CatchMembers(cs: seq<Catch>)
    ensures forall b :: b in CatchBlocks(cs) <==> exists i :: 0 <= i < |cs| && cs[i].block == b
    ensures |CatchBlocks(cs)| == |cs|
  {
    if cs != [] {
      CatchMembers(cs[1..]);
      forall b ensures b in CatchBlocks(cs) <==> exists i :: 0 <= i < |cs| && cs[i].block == b {
        if i :| 0 <= i < |cs| && cs[i].block == b {
          assert i > 0 ==> cs[1..][i - 1] == cs[i];
        }
        if i :| 0 <= i < |cs[1..]| && cs[1..][i].block == b {
          assert cs[i + 1].block == b;
        }
      }
    }
  }

  lemma {:induction false} CaseMembers(cs: seq<MatchCase>)
    ensures forall b :: b in CaseBlocks(cs) <==> exists i :: 0 <= i < |cs| && cs[i].block == Some(b)
  {
    if cs != [] {
      CaseMembers(cs[1..]);
      forall b ensures b in CaseBlocks(cs) <==> exists i :: 0 <= i < |cs| && cs[i].block == Some(b) {
        if i :| 0 <= i < |cs| && cs[i].block == Some(b) {
          assert i > 0 ==> cs[1..][i - 1] == cs[i];
        }
        if i :| 0 <= i < |cs[1..]| && cs[1..][i].block == Some(b) {
          assert cs[i + 1].block == Some(b);
        }
      }
    }
  }

  lemma BlocksAreThoseOf(s: Statement)
    ensures forall b :: b in Blocks(s) <==> BlockOf(b, s)
  {
    match s
    case If(_, _, elifs, _, _) => ElseIfMembers(elifs);
    case Try(_, catches, _, _) => CatchMembers(catches);
    case Match(m) => CaseMembers(m.cases);
    case _ =>
  }

  /** The statements of all blocks, one block after the other. */
  function AllStatements(bs: seq<Block>): seq<Statement> {
    if bs == [] then [] else bs[0].statements + AllStatements(bs[1..])
  }

  lemma {:induction false} ForestConcat(a: seq<Statement>, b: seq<Statement>)
    ensures Forest(a + b) == Forest(a) + Forest(b)
  {
    if a == [] {
      assert a + b == b;
    } else {
      assert (a + b)[0] == a[0] && (a + b)[1..] == a[1..] + b;
      ForestConcat(a[1..], b);
    }
  }

  lemma {:induction false} AllConcat(a: seq<Block>, b: seq<Block>)
    ensures AllStatements(a + b) == AllStatements(a) + AllStatements(b)
  {
    if a == [] {
      assert a + b == b;
    } else {
      assert (a + b)[0] == a[0] && (a + b)[1..] == a[1..] + b;
      AllConcat(a[1..], b);
    }
  }

  lemma OneBlock(b: Block)
    ensures AllStatements([b]) == b.statements
  {
    assert [b][1..] == [] && b.statements + [] == b.statements;
  }

  lemma {:induction false} ElseIfForest(es: seq<ElseIf>)
    ensures ElseIfTrees(es) == Forest(AllStatements(ElseIfBlocks(es)))
  {
    if es != [] {
      ElseIfForest(es[1..]);
      assert ElseIfBlocks(es)[1..] == ElseIfBlocks(es[1..]);
      ForestConcat(es[0].block.statements, AllStatements(ElseIfBlocks(es[1..])));
    }
  }

  lemma {:induction false} CatchForest(cs: seq<Catch>)
    ensures CatchTrees(cs) == Forest(AllStatements(CatchBlocks(cs)))
  {
    if cs != [] {
      CatchForest(cs[1..]);
      assert CatchBlocks(cs)[1..] == CatchBlocks(cs[1..]);
      ForestConcat(cs[0].block.statements, AllStatements(CatchBlocks(cs[1..])));
    }
  }

  lemma {:induction false} CaseForest(cs: seq<MatchCase>)
    ensures CaseTrees(cs) == Forest(AllStatements(CaseBlocks(cs)))
  {
    if cs != [] {
      CaseForest(cs[1..]);
      var first := OptionalBlock(cs[0].block);
      AllConcat(first, CaseBlocks(cs[1..]));
      if cs[0].block.Some? {
        OneBlock(cs[0].block.value);
      }
      ForestConcat(AllStatements(first), AllStatements(CaseBlocks(cs[1..])));
    }
  }

  lemma OptionalForest(b: Option<Block>)
    ensures (if b.Some? then BlockTrees(b.value) else []) == Forest(AllStatements(OptionalBlock(b)))
  {
    if b.Some? {
      OneBlock(b.value);
    }
  }

  lemma ThreeForests(a: seq<Block>, b: seq<Block>, c: seq<Block>)
    ensures Forest(AllStatements(a + b + c))
            == Forest(AllStatements(a)) + Forest(AllStatements(b)) + Forest(AllStatements(c))
  {
    AllConcat(a + b, c);
    AllConcat(a, b);
    ForestConcat(AllStatements(a) + AllStatements(b), AllStatements(c));
    ForestConcat(AllStatements(a), AllStatements(b));
  }

  /** Below a statement stand the statements of its blocks, all of them and in order. */
  lemma ChildrenAreBlocks(s: Statement)
    ensures TreeOf(s).children == Forest(AllStatements(Blocks(s)))
  {
    match s
    case Plain(_, _, _) =>
    case If(_, t, elifs, els, _) =>
      OneBlock(t);
      ElseIfForest(elifs);
      OptionalForest(els);
      ThreeForests([t], ElseIfBlocks(elifs), OptionalBlock(els));
    case Loop(_, b, _) => OneBlock(b);
    case Try(t, catches, fin, _) =>
      OneBlock(t);
      CatchForest(catches);
      OptionalForest(fin);
      ThreeForests([t], CatchBlocks(catches), OptionalBlock(fin));
    case FunctionDecl(_, b, _) => OneBlock(b);
    case Match(m) => CaseForest(m.cases);
    case TuiBlock(b, _) => OneBlock(b);
  }

  lemma {:induction false} AllMembers(bs: seq<Block>)
    ensures forall t :: t in AllStatements(bs) <==> exists b :: b in bs && t in b.statements
  {
    if bs != [] {
      AllMembers(bs[1..]);
      assert bs == [bs[0]] + bs[1..];
    }
  }

  // --------------------------------------------------------------------------
  // The order of the blocks is that of the source
  // --------------------------------------------------------------------------

  /** The blocks lie on lines one after the other, from `lo` to `hi`. */
  predicate BlocksAscend(bs: seq<Block>, lo: nat, hi: nat) {
    lo <= hi &&
    (bs == [] ||
     (lo <= bs[0].span.startLine <= bs[0].span.endLine && BlocksAscend(bs[1..], bs[0].span.endLine, hi)))
  }

  lemma AscendFrom(bs: seq<Block>, lo: nat, line: nat, hi: nat)
    requires lo <= line && BlocksAscend(bs, line, hi)
    ensures BlocksAscend(bs, lo, hi)
  {
  }

  lemma {:induction false} AscendConcat(a: seq<Block>, b: seq<Block>, lo: nat, mid: nat, hi: nat)
    requires BlocksAscend(a, lo, mid) && BlocksAscend(b, mid, hi)
    ensures BlocksAscend(a + b, lo, hi)
    decreases |a|
  {
    if a == [] {
      assert a + b == b;
    } else {
      assert (a + b)[0] == a[0] && (a + b)[1..] == a[1..] + b;
      AscendConcat(a[1..], b, a[0].span.endLine, mid, hi);
    }
  }

  lemma CodeForward(code: Code, lo: nat, hi: nat)
    requires Layout.InLines(code, lo, hi)
    ensures lo <= hi
  {
  }

  lemma BlockForward(b: Block)
    requires Layout.BlockInLines(b)
    ensures b.span.startLine <= b.span.endLine
  {
  }

  lemma CaseTail(c: MatchCase)
    requires Layout.CaseInLines(c)
    ensures Layout.TailInLines(c.block, c.span.endLine)
    ensures c.span.startLine <= if c.block.Some? then c.block.value.span.startLine else c.span.endLine
  {
    CodeForward(c.value, c.span.startLine, if c.block.Some? then c.block.value.span.startLine else c.span.endLine);
  }

  lemma OneAscends(b: Block, lo: nat)
    requires lo <= b.span.startLine && Layout.BlockInLines(b)
    ensures BlocksAscend([b], lo, b.span.endLine)
  {
    BlockForward(b);
    assert [b][1..] == [];
  }

  lemma {:induction false} ElseIfsAscend(es: seq<ElseIf>, lo: nat, hi: nat)
    requires Layout.ElseIfsInLines(es, lo, hi)
    ensures BlocksAscend(ElseIfBlocks(es), lo, hi)
  {
    if es != [] {
      CodeForward(es[0].condition, lo, es[0].block.span.startLine);
      BlockForward(es[0].block);
      ElseIfsAscend(es[1..], es[0].block.span.endLine, hi);
      assert ElseIfBlocks(es)[1..] == ElseIfBlocks(es[1..]);
    }
  }

  lemma {:induction false} CatchesAscend(cs: seq<Catch>, lo: nat, hi: nat)
    requires Layout.CatchesInLines(cs, lo, hi)
    ensures BlocksAscend(CatchBlocks(cs), lo, hi)
  {
    if cs != [] {
      BlockForward(cs[0].block);
      CatchesAscend(cs[1..], cs[0].block.span.endLine, hi);
      assert CatchBlocks(cs)[1..] == CatchBlocks(cs[1..]);
    }
  }

  lemma {:induction false} CasesAscend(cs: seq<MatchCase>, lo: nat, hi: nat)
    requires Layout.CasesInLines(cs, lo, hi)
    ensures BlocksAscend(CaseBlocks(cs), lo, hi)
  {
    if cs != [] {
      var mid := cs[0].span.endLine;
      CasesAscend(cs[1..], mid, hi);
      var end := if cs[0].block.Some? then cs[0].block.value.span.startLine else mid;
       CodeForward(cs[0].value, cs[0].span.startLine, end);
      CaseTail(cs[0]);
      TailAscends(cs[0].block, lo, mid);
      AscendConcat(OptionalBlock(cs[0].block), CaseBlocks(cs[1..]), lo, mid, hi);
    }
  }

  lemma {:induction false} AscendUpTo(bs: seq<Block>, lo: nat, line: nat, hi: nat)
    requires BlocksAscend(bs, lo, line) && line <= hi
    ensures BlocksAscend(bs, lo, hi)
    decreases |bs|
  {
    if bs != [] {
      AscendUpTo(bs[1..], bs[0].span.endLine, line, hi);
    }
  }

  lemma TailAscends(b: Option<Block>, lo: nat, hi: nat)
    requires Layout.TailInLines(b, hi) && lo <= (if b.Some? then b.value.span.startLine else hi)
    ensures BlocksAscend(OptionalBlock(b), lo, hi)
  {
    if b.Some? {
      OneAscends(b.value, lo);
      AscendUpTo([b.value], lo, b.value.span.endLine, hi);
    }
  }

  /** The blocks of a parsed statement are listed in the order of its source, each once. */
  lemma BlocksInSourceOrder(s: Statement)
    requires Layout.StatementInLines(s)
    ensures BlocksAscend(Blocks(s), s.GetSpan().startLine, s.GetSpan().endLine)
  {
    var lo, hi := s.GetSpan().startLine, s.GetSpan().endLine;
    match s
    case Plain(_, code, _) => CodeForward(code, lo, hi);
    case If(_, t, elifs, els, _) =>
      var last := if els.Some? then els.value.span.startLine else hi;
      CodeForward(s.condition, lo, t.span.startLine);
      OneAscends(t, lo);
      ElseIfsAscend(elifs, t.span.endLine, last);
      TailAscends(els, last, hi);
      AscendConcat([t], ElseIfBlocks(elifs), lo, t.span.endLine, last);
      AscendConcat([t] + ElseIfBlocks(elifs), OptionalBlock(els), lo, last, hi);
    case Loop(head, b, _) =>
      CodeForward(head, lo, b.span.startLine);
      WholeAscends(b, lo, hi);
    case Try(t, catches, fin, _) =>
      var last := if fin.Some? then fin.value.span.startLine else hi;
      OneAscends(t, lo);
      CatchesAscend(catches, t.span.endLine, last);
      TailAscends(fin, last, hi);
      AscendConcat([t], CatchBlocks(catches), lo, t.span.endLine, last);
      AscendConcat([t] + CatchBlocks(catches), OptionalBlock(fin), lo, last, hi);
    case FunctionDecl(_, b, _) => WholeAscends(b, lo, hi);
    case Match(m) =>
      CodeForward(m.scrutinee, lo, m.scrutineeEnd);
      CasesAscend(m.cases, m.scrutineeEnd, hi);
      AscendFrom(CaseBlocks(m.cases), lo, m.scrutineeEnd, hi);
    case TuiBlock(b, _) => WholeAscends(b, lo, hi);
  }

  lemma WholeAscends(b: Block, lo: nat, hi: nat)
    requires lo <= b.span.startLine && Layout.BlockInLines(b) && b.span.endLine <= hi
    ensures BlocksAscend([b], lo, hi)
  {
    OneAscends(b, lo);
    AscendUpTo([b], lo, b.span.endLine, hi);
  }

  // --------------------------------------------------------------------------
  // The entries of the shape
  // --------------------------------------------------------------------------

  lemma StandsInOne(t: Statement, d: nat, bs: seq<Block>)
    ensures StandsAt(t, d, AllStatements(bs)) <==> exists b :: b in bs && StandsAt(t, d, b.statements)
  {
    AllMembers(bs);
    if d == 0 {
      assert forall b :: b in bs ==> (StandsAt(t, 0, b.statements) <==> t in b.statements);
    } else {
      forall s, inner | s in AllStatements(bs) && BlockOf(inner, s) && StandsAt(t, d - 1, inner.statements)
        ensures exists b :: b in bs && StandsAt(t, d, b.statements)
      {
        var b :| b in bs && s in b.statements;
        assert StandsAt(t, d, b.statements);
      }
      forall b | b in bs && StandsAt(t, d, b.statements) ensures StandsAt(t, d, AllStatements(bs)) {
        var s, inner :| s in b.statements && BlockOf(inner, s) && StandsAt(t, d - 1, inner.statements);
        assert s in AllStatements(bs);
      }
    }
  }

  lemma StandsFirstOrRest(t: Statement, d: nat, ss: seq<Statement>)
    requires ss != []
    ensures StandsAt(t, d, ss) <==>
            || (d == 0 && t == ss[0])
            || (d > 0 && StandsAt(t, d - 1, AllStatements(Blocks(ss[0]))))
            || StandsAt(t, d, ss[1..])
  {
    assert ss == [ss[0]] + ss[1..];
    StandsConcat(t, d, [ss[0]], ss[1..]);
    StandsInOrBelow(t, d, ss[0]);
  }

  lemma StandsInOrBelow(t: Statement, d: nat, s: Statement)
    ensures StandsAt(t, d, [s]) <==> if d == 0 then t == s else StandsAt(t, d - 1, AllStatements(Blocks(s)))
  {
    if d > 0 {
      StandsInOne(t, d - 1, Blocks(s));
      StandsInSingle(t, d, s);
    }
  }

  lemma StandsConcat(t: Statement, d: nat, a: seq<Statement>, b: seq<Statement>)
    ensures StandsAt(t, d, a + b) <==> StandsAt(t, d, a) || StandsAt(t, d, b)
  {
    assert forall s :: s in a + b <==> s in a || s in b;
  }

  lemma StandsInSingle(t: Statement, d: nat, s: Statement)
    requires d > 0
    ensures StandsAt(t, d, [s]) <==> exists b :: b in Blocks(s) && StandsAt(t, d - 1, b.statements)
  {
    BlocksAreThoseOf(s);
    assert s in [s];
  }

  /** A statement of this variant stands `d` levels deep. */
  ghost predicate AnyStands(v: Variant, d: nat, ss: seq<Statement>) {
    exists t :: StandsAt(t, d, ss) && Discriminant(t) == v
  }

  lemma AnyFirstOrRest(v: Variant, d: nat, ss: seq<Statement>)
    requires ss != []
    ensures AnyStands(v, d, ss) <==>
            || (d == 0 && Discriminant(ss[0]) == v)
            || (d > 0 && AnyStands(v, d - 1, AllStatements(Blocks(ss[0]))))
            || AnyStands(v, d, ss[1..])
  {
    forall t ensures StandsAt(t, d, ss) <==>
                     || (d == 0 && t == ss[0])
                     || (d > 0 && StandsAt(t, d - 1, AllStatements(Blocks(ss[0]))))
                     || StandsAt(t, d, ss[1..])
    {
      StandsFirstOrRest(t, d, ss);
    }
  }

  lemma NoneStands(v: Variant, d: nat)
    ensures !AnyStands(v, d, [])
  {
  }

  lemma EntryFirstOrRest(f: seq<Tree>, depth: nat, e: (nat, Variant))
    requires f != []
    ensures e in PreOrder(f, depth) <==>
            e == (depth, f[0].variant) || e in PreOrder(f[0].children, depth + 1) || e in PreOrder(f[1..], depth)
  {
  }

  /** The shape has an entry at `d` exactly for what stands there. */
  ghost predicate EntryMeans(ss: seq<Statement>, f: seq<Tree>, depth: nat, d: nat, v: Variant) {
    (d, v) in PreOrder(f, depth) <==> depth <= d && AnyStands(v, d - depth, ss)
  }

  lemma EntryStep(ss: seq<Statement>, f: seq<Tree>, depth: nat, d: nat, v: Variant)
    requires ss != [] && f != [] && f[0].variant == Discriminant(ss[0])
    requires EntryMeans(AllStatements(Blocks(ss[0])), f[0].children, depth + 1, d, v)
    requires EntryMeans(ss[1..], f[1..], depth, d, v)
    ensures EntryMeans(ss, f, depth, d, v)
  {
    EntryFirstOrRest(f, depth, (d, v));
    if depth <= d {
      var k: nat := d - depth;
      AnyFirstOrRest(v, k, ss);
      assert k > 0 ==> d - (depth + 1) == k - 1;
    }
  }

  lemma {:induction false} EntryIffStands(ss: seq<Statement>, f: seq<Tree>, depth: nat, d: nat, v: Variant)
    requires f == Forest(ss)
    ensures EntryMeans(ss, f, depth, d, v)
    decreases f
  {
    if ss == [] {
      NoEntries(depth, d, v);
    } else {
      var below := AllStatements(Blocks(ss[0]));
      FirstTree(ss);
      EntryIffStands(below, f[0].children, depth + 1, d, v);
      EntryIffStands(ss[1..], f[1..], depth, d, v);
      EntryStep(ss, f, depth, d, v);
    }
  }

  lemma NoEntries(depth: nat, d: nat, v: Variant)
    ensures EntryMeans([], [], depth, d, v)
  {
    if depth <= d {
      NoneStands(v, d - depth);
    }
  }

  lemma FirstTree(ss: seq<Statement>)
    requires ss != []
    ensures Forest(ss) != [] && Forest(ss)[0].variant == Discriminant(ss[0]) && Forest(ss)[1..] == Forest(ss[1..])
    ensures Forest(ss)[0].children == Forest(AllStatements(Blocks(ss[0])))
  {
    ChildrenAreBlocks(ss[0]);
  }

  /** The shape of a program tells its statements: which variants stand at which depths, in whatever block. */
  lemma ShapeTellsStatements(p: Program)
    ensures forall d: nat, v :: (d, v) in PreOrder(Forest(p.statements), 0) <==> AnyStands(v, d, p.statements)
  {
    forall d: nat, v ensures (d, v) in PreOrder(Forest(p.statements), 0) <==> AnyStands(v, d, p.statements) {
      EntryIffStands(p.statements, Forest(p.statements), 0, d, v);
      assert d - 0 == d;
    }
  }

  // --------------------------------------------------------------------------
  // How many entries
  // --------------------------------------------------------------------------

  /** The entries that a list of statements has. */
  function Entries(ss: seq<Statement>): nat {
    |PreOrder(Forest(ss), 0)|
  }

  lemma {:induction false} EntriesAtAnyDepth(f: seq<Tree>, depth: nat)
    ensures |PreOrder(f, depth)| == |PreOrder(f, 0)|
    decreases f
  {
    if f != [] {
      EntriesAtAnyDepth(f[0].children, depth + 1);
      EntriesAtAnyDepth(f[0].children, 1);
      EntriesAtAnyDepth(f[1..], depth);
    }
  }

  lemma {:induction false} EntriesConcat(a: seq<Statement>, b: seq<Statement>)
    ensures Entries(a + b) == Entries(a) + Entries(b)
  {
    if a == [] {
      assert a + b == b;
    } else {
      assert (a + b)[0] == a[0] && (a + b)[1..] == a[1..] + b;
      EntriesConcat(a[1..], b);
    }
  }

  function EntriesOfBlocks(bs: seq<Block>): nat {
    if bs == [] then 0 else Entries(bs[0].statements) + EntriesOfBlocks(bs[1..])
  }

  lemma {:induction false} EntriesByBlock(bs: seq<Block>)
    ensures Entries(AllStatements(bs)) == EntriesOfBlocks(bs)
  {
    if bs != [] {
      EntriesByBlock(bs[1..]);
      EntriesConcat(bs[0].statements, AllStatements(bs[1..]));
    }
  }

  /** A statement has one entry for itself and those of its blocks, so a statement more in any block shows. */
  lemma EntriesOfStatement(s: Statement)
    ensures Entries([s]) == 1 + EntriesOfBlocks(Blocks(s))
  {
    ChildrenAreBlocks(s);
    EntriesAtAnyDepth(TreeOf(s).children, 1);
    EntriesByBlock(Blocks(s));
    assert [s][1..] == [] && Forest([]) == [];
    assert Forest([s]) == [TreeOf(s)] && [TreeOf(s)][1..] == [];
    assert PreOrder([], 0) == [];
  }

  /** The blocks are one each for the branches, bodies and clauses that a statement has. */
  lemma BlockCount(s: Statement)
    ensures match s
            case Plain(_, _, _) => |Blocks(s)| == 0
            case If(_, _, elifs, els, _) => |Blocks(s)| == 1 + |elifs| + (if els.Some? then 1 else 0)
            case Loop(_, _, _) => |Blocks(s)| == 1
            case Try(_, catches, fin, _) => |Blocks(s)| == 1 + |catches| + (if fin.Some? then 1 else 0)
            case FunctionDecl(_, _, _) => |Blocks(s)| == 1
            case Match(m) => |Blocks(s)| == |set i | 0 <= i < |m.cases| && m.cases[i].block.Some?|
            case TuiBlock(_, _) => |Blocks(s)| == 1
  {
    match s
    case If(_, _, elifs, _, _) => ElseIfMembers(elifs);
    case Try(_, catches, _, _) => CatchMembers(catches);
    case Match(m) => CaseCount(m.cases);
    case _ =>
  }

  lemma {:induction false} CaseBlocksConcat(a: seq<MatchCase>, b: seq<MatchCase>)
    ensures CaseBlocks(a + b) == CaseBlocks(a) + CaseBlocks(b)
  {
    if a == [] {
      assert a + b == b;
    } else {
      assert (a + b)[0] == a[0] && (a + b)[1..] == a[1..] + b;
      CaseBlocksConcat(a[1..], b);
    }
  }

  lemma {:induction false} CaseCount(cs: seq<MatchCase>)
    ensures |CaseBlocks(cs)| == |set i | 0 <= i < |cs| && cs[i].block.Some?|
  {
    if cs != [] {
      var n := |cs| - 1;
      var front, last := cs[..n], cs[n];
      CaseCount(front);
      assert cs == front + [last] && [last][1..] == [];
      CaseBlocksConcat(front, [last]);
      ArmsGrow(cs);
    }
  }

  lemma ArmsGrow(cs: seq<MatchCase>)
    requires cs != []
    ensures var n := |cs| - 1;
            |set i | 0 <= i < |cs| && cs[i].block.Some?|
            == |set i | 0 <= i < |cs[..n]| && cs[..n][i].block.Some?| + (if cs[n].block.Some? then 1 else 0)
  {
    var n := |cs| - 1;
    var all := set i | 0 <= i < |cs| && cs[i].block.Some?;
    var earlier := set i | 0 <= i < |cs[..n]| && cs[..n][i].block.Some?;
    assert all == earlier + (if cs[n].block.Some? then {n} else {});
    assert n !in earlier;
  }
}
