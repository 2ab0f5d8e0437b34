/**
 * Supply stacks: read a drawing of crate stacks and a list of `move n from x to y`
 * instructions, replay the instructions with a crane that lifts one crate at a time
 * (part one) or a whole block at once (part two), and read off the top crates.
 */
module SupplyStacks {
  import opened Wrappers
  import opened Text

  /** A stack of crates, bottom first: its last element is the top crate. */
  type Stack = seq<char>

  /** `move count from (from + 1) to (to + 1)`: the stack indices are zero-based. */
  datatype Move = Move(count: int, from: int, to: int)

  /** What `getInput` returns. */
  datatype Input = Input(stacks: seq<Stack>, moves: seq<Move>)

  function Min(a: int, b: int): int
  {
    if a <= b then a else b
  }

  function Max(a: int, b: int): int
  {
    if a <= b then b else a
  }

  /** A move the crane can carry out on n stacks: both stacks exist and the count is not negative. */
  predicate ValidMove(m: Move, n: int)
  {
    0 <= m.count && 0 <= m.from < n && 0 <= m.to < n
  }

  predicate ValidMoves(moves: seq<Move>, n: int)
  {
    forall i :: 0 <= i < |moves| ==> ValidMove(moves[i], n)
  }

  // ---------------------------------------------------------------------------
  // The two crane semantics, as functions of the whole row of stacks

  function Reversed(s: seq<char>): (r: seq<char>)
    ensures |r| == |s|
  {
    if |s| == 0 then [] else Reversed(s[1..]) + [s[0]]
  }

  lemma {:induction false} ReversedAt(s: seq<char>, i: int)
    requires 0 <= i < |s|
    ensures Reversed(s)[i] == s[|s| - 1 - i]
  {
    if i < |s| - 1 {
      ReversedAt(s[1..], i);
    }
  }

  lemma {:induction false} ReversedMultiset(s: seq<char>)
    ensures multiset(Reversed(s)) == multiset(s)
  {
    if |s| > 0 {
      ReversedMultiset(s[1..]);
      assert s == [s[0]] + s[1..];
    }
  }

  /**
   * Part one. Popping the source `count` times and pushing each crate onto the
   * destination lifts the top min(count, height) crates, which land in reverse order;
   * when source and destination are the same stack every crate goes back where it was.
   */
  function MoveOne(st: seq<Stack>, m: Move): (r: seq<Stack>)
    requires ValidMove(m, |st|)
    ensures |r| == |st|
    ensures forall i :: 0 <= i < |st| && i != m.from && i != m.to ==> r[i] == st[i]
  {
    if m.from == m.to then st
    else
      var src := st[m.from];
      var k := Min(m.count, |src|);
      st[m.from := src[..|src| - k]][m.to := st[m.to] + Reversed(src[|src| - k..])]
  }

  /**
   * Part two. The top min(count, height) crates of the source are cut out as one
   * block and put on the destination in the same order.
   */
  function MoveBlock(st: seq<Stack>, m: Move): (r: seq<Stack>)
    requires ValidMove(m, |st|)
    ensures |r| == |st|
    ensures forall i :: 0 <= i < |st| && i != m.from && i != m.to ==> r[i] == st[i]
  {
    var src := st[m.from];
    var k := Min(m.count, |src|);
    var lifted := st[m.from := src[..|src| - k]];
    lifted[m.to := lifted[m.to] + src[|src| - k..]]
  }

  /** Part one moves exactly min(count, height) crates; the j-th one set down is the j-th from the top. */
  lemma MoveOneTransfers(st: seq<Stack>, m: Move)
    requires ValidMove(m, |st|) && m.from != m.to
    ensures var src, dst, r := st[m.from], st[m.to], MoveOne(st, m);
      var k := Min(m.count, |src|);
      r[m.from] == src[..|src| - k] &&
      |r[m.to]| == |dst| + k && r[m.to][..|dst|] == dst &&
      forall j :: |dst| <= j < |dst| + k ==> r[m.to][j] == src[|src| - 1 - (j - |dst|)]
  {
    var src, dst := st[m.from], st[m.to];
    var k := Min(m.count, |src|);
    var r := MoveOne(st, m);
    assert r[m.to] == dst + Reversed(src[|src| - k..]);
    forall j | |dst| <= j < |dst| + k ensures r[m.to][j] == src[|src| - 1 - (j - |dst|)] {
      ReversedAt(src[|src| - k..], j - |dst|);
    }
  }

  /** Part two moves exactly min(count, height) crates and keeps their order. */
  lemma MoveBlockTransfers(st: seq<Stack>, m: Move)
    requires ValidMove(m, |st|) && m.from != m.to
    ensures var src, dst, r := st[m.from], st[m.to], MoveBlock(st, m);
      var k := Min(m.count, |src|);
      r[m.from] == src[..|src| - k] &&
      |r[m.to]| == |dst| + k && r[m.to][..|dst|] == dst &&
      forall j :: |dst| <= j < |dst| + k ==> r[m.to][j] == src[|src| - k + (j - |dst|)]
  {
  }

  /** A move from a stack onto itself changes nothing, under either semantics. */
  lemma SameStackMove(st: seq<Stack>, m: Move)
    requires ValidMove(m, |st|) && m.from == m.to
    ensures MoveOne(st, m) == st
    ensures MoveBlock(st, m) == st
  {
    var src := st[m.from];
    var k := Min(m.count, |src|);
    assert src[..|src| - k] + src[|src| - k..] == src;
  }

  /** Moving at most one crate is the same under both semantics. */
  lemma SingleCrateMovesAgree(st: seq<Stack>, m: Move)
    requires ValidMove(m, |st|) && m.count <= 1
    ensures MoveOne(st, m) == MoveBlock(st, m)
  {
    if m.from == m.to {
      SameStackMove(st, m);
    } else {
      var src := st[m.from];
      var top := src[|src| - Min(m.count, |src|)..];
      assert |top| <= 1;
      assert Reversed(top) == top by {
        if |top| == 1 {
          assert top[1..] == [];
        }
      }
    }
  }

  /** A move of no crates leaves every stack as it was. */
  lemma MoveNothing(st: seq<Stack>, from: int, to: int)
    requires ValidMove(Move(0, from, to), |st|)
    ensures MoveOne(st, Move(0, from, to)) == st
    ensures MoveBlock(st, Move(0, from, to)) == st
  {
    var src := st[from];
    assert src[..|src|] == src;
    assert src[|src|..] == [];
    assert Reversed([]) == [];
    assert st[to] + [] == st[to];
    assert st[from := src] == st;
  }

  /** Writing two different stacks twice keeps only the second writes. */
  lemma UpdateTwice(st: seq<Stack>, a: int, b: int, x: Stack, y: Stack, x': Stack, y': Stack)
    requires 0 <= a < |st| && 0 <= b < |st| && a != b
    ensures st[a := x][b := y][a := x'][b := y'] == st[a := x'][b := y']
  {
  }

  /** The step of MoveOneStep when the source still holds a crate after the first c. */
  lemma MoveOneStepLifts(st: seq<Stack>, m: Move)
    requires ValidMove(m, |st|) && m.from != m.to && m.count < |st[m.from]|
    ensures MoveOne(st, Move(m.count + 1, m.from, m.to)) == MoveOne(MoveOne(st, m), Move(1, m.from, m.to))
  {
    var src, dst := st[m.from], st[m.to];
    var n, k := |src|, m.count;
    var crate := src[n - k - 1];
    var rest := src[n - k - 1..];
    assert rest == [crate] + src[n - k..];
    assert rest[1..] == src[n - k..];
    assert Reversed(rest) == Reversed(src[n - k..]) + [crate];
    var low := src[..n - k];
    assert low[..|low| - 1] == src[..n - k - 1];
    assert low[|low| - 1..] == [crate];
    assert Reversed([crate]) == Reversed([crate][1..]) + [crate] == [crate];
    var high := dst + Reversed(src[n - k..]);
    assert high + Reversed([crate]) == dst + Reversed(rest);
    UpdateTwice(st, m.from, m.to, low, high, src[..n - k - 1], dst + Reversed(rest));
  }

  /** Part one step by step: moving c + 1 crates is moving c crates and then one more. */
  lemma MoveOneStep(st: seq<Stack>, m: Move)
    requires ValidMove(m, |st|)
    ensures MoveOne(st, Move(m.count + 1, m.from, m.to)) == MoveOne(MoveOne(st, m), Move(1, m.from, m.to))
  {
    if m.from != m.to {
      var src := st[m.from];
      if m.count < |src| {
        MoveOneStepLifts(st, m);
      } else {
        var mid := MoveOne(st, m);
        assert mid[m.from] == src[..0] == [];
        MoveNothing(mid, m.from, m.to);
        assert MoveOne(mid, Move(1, m.from, m.to)) == MoveOne(mid, Move(0, m.from, m.to));
      }
    }
  }

  // ---------------------------------------------------------------------------
  // Replaying a list of moves

  lemma ValidPrefix(moves: seq<Move>, n: int, j: int)
    requires ValidMoves(moves, n) && 0 <= j <= |moves|
    ensures ValidMoves(moves[..j], n)
  {
    forall i | 0 <= i < j ensures ValidMove(moves[..j][i], n) {
      assert moves[..j][i] == moves[i];
    }
  }

  function ReplayOne(st: seq<Stack>, moves: seq<Move>): (r: seq<Stack>)
    requires ValidMoves(moves, |st|)
    ensures |r| == |st|
  {
    if |moves| == 0 then st
    else
      ValidPrefix(moves, |st|, |moves| - 1);
      MoveOne(ReplayOne(st, moves[..|moves| - 1]), moves[|moves| - 1])
  }

  function ReplayBlock(st: seq<Stack>, moves: seq<Move>): (r: seq<Stack>)
    requires ValidMoves(moves, |st|)
    ensures |r| == |st|
  {
    if |moves| == 0 then st
    else
      ValidPrefix(moves, |st|, |moves| - 1);
      MoveBlock(ReplayBlock(st, moves[..|moves| - 1]), moves[|moves| - 1])
  }

  /** When no move carries more than one crate, both cranes end in the same place. */
  lemma {:induction false} SingleCrateReplaysAgree(st: seq<Stack>, moves: seq<Move>)
    requires ValidMoves(moves, |st|)
    requires forall i :: 0 <= i < |moves| ==> moves[i].count <= 1
    ensures ReplayOne(st, moves) == ReplayBlock(st, moves)
  {
    if |moves| > 0 {
      var init := moves[..|moves| - 1];
      ValidPrefix(moves, |st|, |moves| - 1);
      assert forall i :: 0 <= i < |init| ==> init[i].count <= 1 by {
        forall i | 0 <= i < |init| ensures init[i].count <= 1 { assert init[i] == moves[i]; }
      }
      SingleCrateReplaysAgree(st, init);
      SingleCrateMovesAgree(ReplayOne(st, init), moves[|moves| - 1]);
    }
  }

  // ---------------------------------------------------------------------------
  // Conservation of crates

  /** All crates of all stacks. */
  function Crates(st: seq<Stack>): multiset<char>
  {
    if |st| == 0 then multiset{} else Crates(st[..|st| - 1]) + multiset(st[|st| - 1])
  }

  /** The number of crates of all stacks. */
  function Total(st: seq<Stack>): nat
  {
    if |st| == 0 then 0 else Total(st[..|st| - 1]) + |st[|st| - 1]|
  }

  lemma {:induction false} CratesTotal(st: seq<Stack>)
    ensures |Crates(st)| == Total(st)
  {
    if |st| > 0 {
      CratesTotal(st[..|st| - 1]);
    }
  }

  lemma MultisetCancel(x: multiset<char>, y: multiset<char>, z: multiset<char>)
    requires x + y == z + y
    ensures x == z
  {
    forall c ensures x[c] == z[c] {
      assert (x + y)[c] == (z + y)[c];
    }
  }

  /** Replacing one stack trades its crates for those of the new stack. */
  lemma {:induction false} CratesUpdate(st: seq<Stack>, i: int, s: Stack)
    requires 0 <= i < |st|
    ensures Crates(st[i := s]) + multiset(st[i]) == Crates(st) + multiset(s)
  {
    var n := |st|;
    var updated := st[i := s];
    if i == n - 1 {
      assert updated[..n - 1] == st[..n - 1];
    } else {
      assert updated[..n - 1] == st[..n - 1][i := s];
      assert st[..n - 1][i] == st[i];
      CratesUpdate(st[..n - 1], i, s);
      calc {
        Crates(updated) + multiset(st[i]);
        Crates(st[..n - 1][i := s]) + multiset(st[n - 1]) + multiset(st[i]);
        Crates(st[..n - 1]) + multiset(s) + multiset(st[n - 1]);
        Crates(st) + multiset(s);
      }
    }
  }

  /** Part one neither creates nor destroys crates. */
  lemma MoveOneConserves(st: seq<Stack>, m: Move)
    requires ValidMove(m, |st|)
    ensures Crates(MoveOne(st, m)) == Crates(st)
  {
    if m.from != m.to {
      var src, dst := st[m.from], st[m.to];
      var k := Min(m.count, |src|);
      var low, top := src[..|src| - k], src[|src| - k..];
      assert src == low + top;
      var lifted := st[m.from := low];
      CratesUpdate(st, m.from, low);
      MultisetCancel(Crates(lifted) + multiset(top), multiset(low), Crates(st));
      CratesUpdate(lifted, m.to, dst + Reversed(top));
      ReversedMultiset(top);
      MultisetCancel(Crates(lifted[m.to := dst + Reversed(top)]), multiset(dst), Crates(lifted) + multiset(top));
    }
  }

  /** Part two neither creates nor destroys crates. */
  lemma MoveBlockConserves(st: seq<Stack>, m: Move)
    requires ValidMove(m, |st|)
    ensures Crates(MoveBlock(st, m)) == Crates(st)
  {
    var src := st[m.from];
    var k := Min(m.count, |src|);
    var low, top := src[..|src| - k], src[|src| - k..];
    assert src == low + top;
    var lifted := st[m.from := low];
    CratesUpdate(st, m.from, low);
    MultisetCancel(Crates(lifted) + multiset(top), multiset(low), Crates(st));
    var dst := lifted[m.to];
    CratesUpdate(lifted, m.to, dst + top);
    MultisetCancel(Crates(lifted[m.to := dst + top]), multiset(dst), Crates(lifted) + multiset(top));
  }

  /** Replaying the moves keeps the number of stacks, the crates and their number. */
  lemma {:induction false} ReplayOneConserves(st: seq<Stack>, moves: seq<Move>)
    requires ValidMoves(moves, |st|)
    ensures |ReplayOne(st, moves)| == |st|
    ensures Crates(ReplayOne(st, moves)) == Crates(st)
    ensures Total(ReplayOne(st, moves)) == Total(st)
  {
    if |moves| > 0 {
      var init := moves[..|moves| - 1];
      ValidPrefix(moves, |st|, |moves| - 1);
      ReplayOneConserves(st, init);
      MoveOneConserves(ReplayOne(st, init), moves[|moves| - 1]);
    }
    CratesTotal(st);
    CratesTotal(ReplayOne(st, moves));
  }

  /** Replaying the moves keeps the number of stacks, the crates and their number. */
  lemma {:induction false} ReplayBlockConserves(st: seq<Stack>, moves: seq<Move>)
    requires ValidMoves(moves, |st|)
    ensures |ReplayBlock(st, moves)| == |st|
    ensures Crates(ReplayBlock(st, moves)) == Crates(st)
    ensures Total(ReplayBlock(st, moves)) == Total(st)
  {
    if |moves| > 0 {
      var init := moves[..|moves| - 1];
      ValidPrefix(moves, |st|, |moves| - 1);
      ReplayBlockConserves(st, init);
      MoveBlockConserves(ReplayBlock(st, init), moves[|moves| - 1]);
    }
    CratesTotal(st);
    CratesTotal(ReplayBlock(st, moves));
  }

  // ---------------------------------------------------------------------------
  // The top crates

  /** The label of the top crate of a stack, or "" when the stack is empty. */
  function Top(s: Stack): (t: string)
    ensures |t| <= 1 && (|t| == 1 <==> |s| > 0)
  {
    if |s| == 0 then "" else [s[|s| - 1]]
  }

  /** The labels of the top crates of the stacks, in stack order. */
  function Tops(st: seq<Stack>): (r: string)
    ensures |r| <= |st|
  {
    if |st| == 0 then "" else Tops(st[..|st| - 1]) + Top(st[|st| - 1])
  }

  /** Each stack adds its own top independently of the others. */
  lemma {:induction false} TopsAppend(a: seq<Stack>, b: seq<Stack>)
    ensures Tops(a + b) == Tops(a) + Tops(b)
  {
    if |b| == 0 {
      assert a + b == a;
    } else {
      assert (a + b)[..|a + b| - 1] == a + b[..|b| - 1];
      TopsAppend(a, b[..|b| - 1]);
    }
  }

  /** With no empty stack there is one label per stack, the i-th being the top of stack i. */
  lemma {:induction false} TopsOfNonEmpty(st: seq<Stack>)
    requires forall i :: 0 <= i < |st| ==> |st[i]| > 0
    ensures |Tops(st)| == |st|
    ensures forall i :: 0 <= i < |st| ==> Tops(st)[i] == st[i][|st[i]| - 1]
  {
    if |st| > 0 {
      var init := st[..|st| - 1];
      TopsOfNonEmpty(init);
      forall i | 0 <= i < |st| ensures Tops(st)[i] == st[i][|st[i]| - 1] {
        if i < |init| {
          assert Tops(st)[i] == Tops(init)[i];
        }
      }
    }
  }

  /** `makeResultString`: appends the top crate of every stack in order. */
  method MakeResultString(stacks: array<Stack>) returns (result: string)
    ensures result == Tops(stacks[..])
  {
    result := "";
    for i := 0 to stacks.Length
      invariant result == Tops(stacks[..i])
    {
      var stack := stacks[i];
      result := result + (if |stack| > 0 then [stack[|stack| - 1]] else "");
      assert stacks[..i + 1][..i] == stacks[..i];
    }
    assert stacks[..stacks.Length] == stacks[..];
  }

  // ---------------------------------------------------------------------------
  // The cranes, on an array of stacks changed in place

  /** `pop` on stack i: its top crate, taken off, or None when the stack is empty. */
  method Pop(stacks: array<Stack>, i: int) returns (item: Option<char>)
    requires 0 <= i < stacks.Length
    modifies stacks
    ensures var s := old(stacks[i]);
      if |s| == 0 then item == None && stacks[..] == old(stacks[..])
      else item == Some(s[|s| - 1]) && stacks[..] == old(stacks[..])[i := s[..|s| - 1]]
  {
    var s := stacks[i];
    if |s| == 0 {
      item := None;
    } else {
      item := Some(s[|s| - 1]);
      stacks[i] := s[..|s| - 1];
    }
  }

  /** Moving one crate is popping the source and, unless it was empty, pushing that crate onto the destination. */
  lemma MoveOneCrate(st: seq<Stack>, from: int, to: int)
    requires ValidMove(Move(1, from, to), |st|)
    ensures var src := st[from];
      MoveOne(st, Move(1, from, to)) ==
        if |src| == 0 then st
        else var popped := st[from := src[..|src| - 1]]; popped[to := popped[to] + [src[|src| - 1]]]
  {
    var src := st[from];
    if |src| > 0 {
      var top := src[|src| - 1..];
      assert top == [src[|src| - 1]];
      assert Reversed(top) == Reversed(top[1..]) + [top[0]] == top;
      if from == to {
        assert src[..|src| - 1] + top == src;
        assert st[from := src] == st;
      }
    } else {
      MoveNothing(st, from, to);
      assert MoveOne(st, Move(1, from, to)) == MoveOne(st, Move(0, from, to));
    }
  }

  /** The inner loop of part one: `count` times pop the source and push what came off onto the destination. */
  method MoveOneByOne(stacks: array<Stack>, m: Move)
    requires ValidMove(m, stacks.Length)
    modifies stacks
    ensures stacks[..] == MoveOne(old(stacks[..]), m)
  {
    MoveNothing(stacks[..], m.from, m.to);
    var counts := 0;
    while counts < m.count
      invariant 0 <= counts <= m.count
      invariant stacks[..] == MoveOne(old(stacks[..]), Move(counts, m.from, m.to))
    {
      ghost var before := stacks[..];
      var item := Pop(stacks, m.from);
      if item.Some? {
        stacks[m.to] := stacks[m.to] + [item.value];
      }
      MoveOneCrate(before, m.from, m.to);
      MoveOneStep(old(stacks[..]), Move(counts, m.from, m.to));
      counts := counts + 1;
    }
  }

  /**
   * `splice(start, deleteCount)` on a stack: the removed block and what remains. A negative
   * start counts from the end and stops at 0, a start past the end is the end, and the
   * count is cut down to what is left after the start.
   */
  function Splice(s: seq<char>, start: int, deleteCount: int): (r: (seq<char>, seq<char>))
    ensures |r.0| + |r.1| == |s|
    ensures multiset(r.0) + multiset(r.1) == multiset(s)
  {
    var first := if start < 0 then Max(|s| + start, 0) else Min(start, |s|);
    var count := Min(Max(deleteCount, 0), |s| - first);
    assert s == s[..first] + s[first..first + count] + s[first + count..];
    (s[first..first + count], s[..first] + s[first + count..])
  }

  /** `splice(-count, count)` cuts the top min(count, height) crates off, nothing when count is 0. */
  lemma SpliceTop(s: seq<char>, count: int)
    requires count >= 0
    ensures var k := Min(count, |s|);
      Splice(s, -1 * count, count) == (s[|s| - k..], s[..|s| - k])
  {
    var k := Min(count, |s|);
    var r := Splice(s, -1 * count, count);
    if count == 0 {
      assert r.0 == s[0..0] == s[|s|..];
      assert r.1 == s[..0] + s[0..] == s[..|s|];
    } else {
      var first := Max(|s| - count, 0);
      assert first == |s| - k;
      assert r.0 == s[first..first + k] == s[|s| - k..];
      assert r.1 == s[..first] + s[first + k..] == s[..|s| - k];
    }
    assert r == (r.0, r.1);
  }

  /** The body of part two for one move: splice the block off the source and push it onto the destination. */
  method MoveAsBlock(stacks: array<Stack>, m: Move)
    requires ValidMove(m, stacks.Length)
    modifies stacks
    ensures stacks[..] == MoveBlock(old(stacks[..]), m)
  {
    SpliceTop(stacks[m.from], m.count);
    var spliced := Splice(stacks[m.from], -1 * m.count, m.count);
    stacks[m.from] := spliced.1;
    stacks[m.to] := stacks[m.to] + spliced.0;
  }

  /** The replay loop of part one. */
  method RearrangeOneByOne(stacks: array<Stack>, moves: seq<Move>)
    requires ValidMoves(moves, stacks.Length)
    modifies stacks
    ensures stacks[..] == ReplayOne(old(stacks[..]), moves)
  {
    for i := 0 to |moves|
      invariant ValidMoves(moves[..i], stacks.Length)
      invariant stacks[..] == ReplayOne(old(stacks[..]), moves[..i])
    {
      ValidPrefix(moves, stacks.Length, i + 1);
      assert moves[..i + 1][..i] == moves[..i];
      MoveOneByOne(stacks, moves[i]);
    }
    assert moves[..|moves|] == moves;
  }

  /** The replay loop of part two. */
  method RearrangeAsBlock(stacks: array<Stack>, moves: seq<Move>)
    requires ValidMoves(moves, stacks.Length)
    modifies stacks
    ensures stacks[..] == ReplayBlock(old(stacks[..]), moves)
  {
    for i := 0 to |moves|
      invariant ValidMoves(moves[..i], stacks.Length)
      invariant stacks[..] == ReplayBlock(old(stacks[..]), moves[..i])
    {
      ValidPrefix(moves, stacks.Length, i + 1);
      assert moves[..i + 1][..i] == moves[..i];
      MoveAsBlock(stacks, moves[i]);
    }
    assert moves[..|moves|] == moves;
  }

  // ---------------------------------------------------------------------------
  // Reading the drawing of the stacks

  /**
   * The crate row `row` puts on stack i: the letter at 4i + 1 when column i, the
   * characters [4i, 4i + 3) cut short at the end of the row, is not all blank.
   */
  function CrateAt(row: string, i: int): (c: seq<char>)
    ensures |c| <= 1
    ensures |c| == 1 ==> 0 <= i && 4 * i + 1 < |row| && c[0] == row[4 * i + 1]
  {
    if 0 <= i && 4 * i + 1 < |row| && !AllBlank(row[4 * i..Min(4 * i + 3, |row|)]) then [row[4 * i + 1]] else []
  }

  /**
   * A row the drawing can hold: a non-blank column always has a character at 4i + 1.
   * Only a row whose last column is a single non-blank character breaks this.
   */
  predicate WellFormedRow(row: string)
  {
    |row| % 4 != 1 || IsBlank(row[|row| - 1])
  }

  predicate WellFormedRows(rows: seq<string>)
  {
    forall r :: 0 <= r < |rows| ==> WellFormedRow(rows[r])
  }

  /** In a well-formed row every non-blank column has its letter. */
  lemma CrateLabelInRow(row: string, i: int)
    requires WellFormedRow(row) && 0 <= i && 4 * i < |row|
    requires !AllBlank(row[4 * i..Min(4 * i + 3, |row|)])
    ensures CrateAt(row, i) == [row[4 * i + 1]]
  {
  }

  /** The number of columns the loop over a row visits: one per i with 4i < width. */
  function ColumnCount(width: int): nat
  {
    if width <= 0 then 0 else (width + 3) / 4
  }

  /** The number of stacks a drawing creates: as many as its widest row has columns. */
  function Width(rows: seq<string>): nat
  {
    if |rows| == 0 then 0 else Max(Width(rows[..|rows| - 1]), ColumnCount(|rows[|rows| - 1]|))
  }

  /**
   * Stack i of a drawing whose rows are listed top to bottom: every row puts its crate
   * underneath the ones above it, so the last row is at the bottom (index 0).
   */
  function Column(rows: seq<string>, i: int): Stack
  {
    if |rows| == 0 then [] else CrateAt(rows[|rows| - 1], i) + Column(rows[..|rows| - 1], i)
  }


  /** Past the widest row there are no crates. */
  lemma {:induction false} ColumnBeyondWidth(rows: seq<string>, i: nat)
    requires i >= Width(rows)
    ensures Column(rows, i) == []
  {
    if |rows| > 0 {
      ColumnBeyondWidth(rows[..|rows| - 1], i);
    }
  }

  /** The first row of the drawing ends up on top. */
  lemma {:induction false} FirstRowOnTop(first: string, rows: seq<string>, i: nat)
    ensures Column([first] + rows, i) == Column(rows, i) + CrateAt(first, i)
  {
    if |rows| > 0 {
      var init := rows[..|rows| - 1];
      assert ([first] + rows)[..|rows|] == [first] + init;
      FirstRowOnTop(first, init, i);
    } else {
      assert [first][..0] == [];
    }
  }

  /** Each stack holds exactly the crates of its column, one per row with a crate there. */
  lemma {:induction false} ColumnHeight(rows: seq<string>, i: nat)
    ensures |Column(rows, i)| <= |rows|
    ensures (forall r :: 0 <= r < |rows| ==> CrateAt(rows[r], i) == []) ==> Column(rows, i) == []
  {
    if |rows| > 0 {
      var init := rows[..|rows| - 1];
      ColumnHeight(init, i);
      if forall r :: 0 <= r < |rows| ==> CrateAt(rows[r], i) == [] {
        assert forall r :: 0 <= r < |init| ==> CrateAt(init[r], i) == [] by {
          forall r | 0 <= r < |init| ensures CrateAt(init[r], i) == [] { assert init[r] == rows[r]; }
        }
      }
    }
  }

  /** Every column of a drawing is at most as tall as the drawing, and past the widest row there are none. */
  lemma ColumnsFit(rows: seq<string>)
    ensures forall i :: 0 <= i ==> |Column(rows, i)| <= |rows|
    ensures forall i :: i >= Width(rows) ==> Column(rows, i) == []
  {
    forall i | 0 <= i ensures |Column(rows, i)| <= |rows| {
      ColumnHeight(rows, i);
    }
    forall i | i >= Width(rows) ensures Column(rows, i) == [] {
      ColumnBeyondWidth(rows, i);
    }
  }

  /**
   * The stacks a drawing describes, one per column of its widest row: no stack is taller
   * than the drawing, and no crate of the drawing is left outside the stacks.
   */
  function DiagramStacks(rows: seq<string>): (st: seq<Stack>)
    ensures forall i :: 0 <= i < |st| ==> |st[i]| <= |rows|
    ensures forall i :: i >= |st| ==> Column(rows, i) == []
  {
    ColumnsFit(rows);
    seq(Width(rows), i => Column(rows, i))
  }

  /** The stacks are those of the drawing, column by column. */
  predicate ReadAs(stacks: seq<Stack>, rows: seq<string>)
  {
    |stacks| == Width(rows) && forall i :: 0 <= i < |stacks| ==> stacks[i] == Column(rows, i)
  }

  lemma ReadAsDiagram(stacks: seq<Stack>, rows: seq<string>)
    ensures ReadAs(stacks, rows) <==> stacks == DiagramStacks(rows)
  {
  }

  /** The stacks after the first k columns of the row `line` have been read under the rows `above`. */
  predicate PartlyRead(result: seq<Stack>, above: seq<string>, line: string, k: int)
  {
    |result| == Max(Width(above), k) &&
    forall i :: 0 <= i < |result| ==>
      result[i] == (if i < k then CrateAt(line, i) else []) + Column(above, i)
  }

  /** Reading column k moves from k read columns to k + 1. */
  lemma ReadColumn(before: seq<Stack>, after: seq<Stack>, above: seq<string>, line: string, k: nat)
    requires PartlyRead(before, above, line, k)
    requires |after| == Max(Width(above), k + 1)
    requires after[k] == CrateAt(line, k) + Column(above, k)
    requires forall i :: 0 <= i < |before| && i != k ==> after[i] == before[i]
    ensures PartlyRead(after, above, line, k + 1)
  {
    forall i | 0 <= i < |after|
      ensures after[i] == (if i < k + 1 then CrateAt(line, i) else []) + Column(above, i)
    {
      if i != k {
        assert after[i] == before[i];
      }
    }
  }

  /** Before a row is read, the stacks are those of the rows above it. */
  lemma StartRow(stacks: seq<Stack>, above: seq<string>, line: string)
    requires ReadAs(stacks, above)
    ensures PartlyRead(stacks, above, line, 0)
  {
    forall i | 0 <= i < |stacks|
      ensures stacks[i] == (if i < 0 then CrateAt(line, i) else []) + Column(above, i)
    {
      assert [] + Column(above, i) == Column(above, i);
    }
  }

  /** Once every column of a row is read, the stacks are those of the rows down to it. */
  lemma FinishRow(result: seq<Stack>, above: seq<string>, line: string)
    requires PartlyRead(result, above, line, ColumnCount(|line|))
    ensures ReadAs(result, above + [line])
  {
    var rows := above + [line];
    assert rows[..|rows| - 1] == above;
    forall i | 0 <= i < |result| ensures result[i] == Column(rows, i) {
    }
  }

  /**
   * The inner loop that reads one row of the drawing: for every column i of the row,
   * create stack i if it does not exist yet and, when the column is not blank,
   * `unshift` its letter onto the bottom of stack i.
   */
  method ParseRow(stacks: seq<Stack>, ghost above: seq<string>, line: string) returns (result: seq<Stack>)
    requires ReadAs(stacks, above)
    requires WellFormedRow(line)
    ensures ReadAs(result, above + [line])
  {
    result := stacks;
    var position := 0;
    ghost var column := 0;
    StartRow(stacks, above, line);
    while position < |line|
      invariant 0 <= position <= |line| + 3 && position == 4 * column
      invariant PartlyRead(result, above, line, column)
    {
      var crate := line[position..Min(position + 3, |line|)];
      var index := position / 4;
      assert index == column;
      ghost var before := result;
      if index == |result| {
        ColumnBeyondWidth(above, index);
        result := result + [[]];
      }
      assert index < |result| && result[index] == Column(above, index);
      if Trim(crate) != "" {
        CrateLabelInRow(line, index);
        result := result[index := [line[position + 1]] + result[index]];
      } else {
        assert CrateAt(line, index) == [];
      }
      ReadColumn(before, result, above, line, index);
      position := position + 4;
      column := column + 1;
    }
    assert column == ColumnCount(|line|);
    FinishRow(result, above, line);
  }

  /** The outer loop that reads the drawing, row by row from the top. */
  method ParseDiagram(rows: seq<string>) returns (stacks: seq<Stack>)
    requires WellFormedRows(rows)
    ensures stacks == DiagramStacks(rows)
  {
    stacks := [];
    ReadAsDiagram(stacks, []);
    for r := 0 to |rows|
      invariant stacks == DiagramStacks(rows[..r])
    {
      ReadAsDiagram(stacks, rows[..r]);
      stacks := ParseRow(stacks, rows[..r], rows[r]);
      assert rows[..r] + [rows[r]] == rows[..r + 1];
      ReadAsDiagram(stacks, rows[..r + 1]);
    }
    assert rows[..|rows|] == rows;
  }

  /** The rows of the drawing: the lines of the stacks block without its last one, the row of stack numbers. */
  function DiagramRows(block: string): seq<string>
  {
    var lines := Split(block, '\n');
    lines[..|lines| - 1]
  }

  /** Whatever the last line holds, it is the one dropped. */
  lemma DiagramRowsOf(rows: seq<string>, labels: string)
    requires forall r :: 0 <= r < |rows| ==> '\n' !in rows[r]
    requires '\n' !in labels
    ensures DiagramRows(Join(rows + [labels], '\n')) == rows
  {
    SplitJoin(rows + [labels], '\n');
    assert (rows + [labels])[..|rows|] == rows;
  }

  // ---------------------------------------------------------------------------
  // Reading the moves

  /** `map(Number).filter(n => !isNaN(n))`: the words that are numbers, as numbers, in order. */
  function Numbers(words: seq<string>): (ns: seq<nat>)
    ensures |ns| <= |words|
  {
    if |words| == 0 then []
    else
      var init := Numbers(words[..|words| - 1]);
      match ToNumber(words[|words| - 1])
      case Some(n) => init + [n]
      case None => init
  }

  /**
   * A move line: its first three numbers are the count and the one-based numbers of the
   * source and destination stacks. A line with fewer than three numbers is malformed.
   */
  function ParseMove(line: string): (m: Option<Move>)
    ensures m.Some? <==> |Numbers(Split(line, ' '))| >= 3
    ensures m.Some? ==> m.value.count >= 0 && m.value.from >= -1 && m.value.to >= -1
  {
    var ns := Numbers(Split(line, ' '));
    if |ns| < 3 then None else Some(Move(ns[0], ns[1] as int - 1, ns[2] as int - 1))
  }

  /** The line `move <count> from <from> to <to>`: its six words, separated by single spaces. */
  function MoveLine(count: nat, from: nat, to: nat): string
  {
    Join(["move", Numeral(count), "from", Numeral(from), "to", Numeral(to)], ' ')
  }

  /** A blank-free word that starts with a non-digit is not a number. */
  lemma WordNotNumber(w: string)
    requires |w| > 0 && forall i :: 0 <= i < |w| ==> !IsBlank(w[i])
    requires !IsDigit(w[0])
    ensures ToNumber(w) == None
  {
    TrimNonBlank(w);
  }

  lemma NumbersAppend(words: seq<string>, w: string)
    ensures Numbers(words + [w]) == Numbers(words) + (if ToNumber(w).Some? then [ToNumber(w).value] else [])
  {
    assert (words + [w])[..|words|] == words;
  }

  /** The words of a move line. */
  lemma MoveLineWords(count: nat, from: nat, to: nat)
    ensures Split(MoveLine(count, from, to), ' ') == ["move", Numeral(count), "from", Numeral(from), "to", Numeral(to)]
  {
    var words := ["move", Numeral(count), "from", Numeral(from), "to", Numeral(to)];
    assert IsBlank(' ');
    forall i | 0 <= i < |words| ensures ' ' !in words[i] {
    }
    SplitJoin(words, ' ');
  }

  /** `move n from x to y` reads as the move of n crates from stack x - 1 to stack y - 1. */
  lemma ParseMoveLine(count: nat, from: nat, to: nat)
    ensures ParseMove(MoveLine(count, from, to)) == Some(Move(count, from - 1, to - 1))
  {
    var c, f, t := Numeral(count), Numeral(from), Numeral(to);
    MoveLineWords(count, from, to);
    WordNotNumber("move");
    WordNotNumber("from");
    WordNotNumber("to");
    ToNumberNumeral(count);
    ToNumberNumeral(from);
    ToNumberNumeral(to);
    var w1 := [] + ["move"];
    var w2 := w1 + [c];
    var w3 := w2 + ["from"];
    var w4 := w3 + [f];
    var w5 := w4 + ["to"];
    var w6 := w5 + [t];
    NumbersAppend([], "move");
    NumbersAppend(w1, c);
    NumbersAppend(w2, "from");
    NumbersAppend(w3, f);
    NumbersAppend(w4, "to");
    NumbersAppend(w5, t);
    assert w6 == ["move", c, "from", f, "to", t];
    assert Numbers(w6) == [count, from, to];
  }

  /** All move lines, or None when one of them is malformed. */
  function MovesOf(lines: seq<string>): (r: Option<seq<Move>>)
    ensures r.Some? ==> |r.value| == |lines|
    ensures r.Some? <==> forall i :: 0 <= i < |lines| ==> ParseMove(lines[i]).Some?
    ensures r.Some? ==> forall i :: 0 <= i < |lines| ==> ParseMove(lines[i]) == Some(r.value[i])
  {
    if |lines| == 0 then Some([])
    else
      match (MovesOf(lines[..|lines| - 1]), ParseMove(lines[|lines| - 1]))
      case (Some(ms), Some(m)) => Some(ms + [m])
      case _ => None
  }

  lemma {:induction false} MovesOfAll(lines: seq<string>, moves: seq<Move>)
    requires |lines| == |moves|
    requires forall i :: 0 <= i < |lines| ==> ParseMove(lines[i]) == Some(moves[i])
    ensures MovesOf(lines) == Some(moves)
  {
    if |lines| > 0 {
      MovesOfAll(lines[..|lines| - 1], moves[..|moves| - 1]);
      assert moves[..|moves| - 1] + [moves[|moves| - 1]] == moves;
    }
  }

  /** The loop over the move lines, pushing one move per line. */
  method ParseMoves(lines: seq<string>) returns (moves: Option<seq<Move>>)
    ensures moves == MovesOf(lines)
  {
    var acc: seq<Move> := [];
    for i := 0 to |lines|
      invariant MovesOf(lines[..i]) == Some(acc)
    {
      var m := ParseMove(lines[i]);
      if m.None? {
        return None;
      }
      assert lines[..i + 1][..i] == lines[..i];
      acc := acc + [m.value];
    }
    assert lines[..|lines|] == lines;
    moves := Some(acc);
  }

  // ---------------------------------------------------------------------------
  // The whole puzzle

  /**
   * The stacks and moves of an input made of the stacks block and the moves block
   * (the two halves of the file, either side of its blank line); None when a row of
   * the drawing or a move line is malformed.
   */
  function PuzzleInput(stacksBlock: string, movesBlock: string): Option<Input>
  {
    var rows := DiagramRows(stacksBlock);
    if !WellFormedRows(rows) then None
    else
      match MovesOf(Split(movesBlock, '\n'))
      case None => None
      case Some(moves) => Some(Input(DiagramStacks(rows), moves))
  }

  /** `getInput`. */
  method GetInput(stacksBlock: string, movesBlock: string) returns (r: Option<Input>)
    ensures r == PuzzleInput(stacksBlock, movesBlock)
  {
    var stackLines := Split(stacksBlock, '\n');
    stackLines := stackLines[..|stackLines| - 1];
    if !WellFormedRows(stackLines) {
      return None;
    }
    var stacks := ParseDiagram(stackLines);
    var moves := ParseMoves(Split(movesBlock, '\n'));
    if moves.None? {
      return None;
    }
    r := Some(Input(stacks, moves.value));
  }

  /** The stacks of the input, in a fresh array. */
  method ToArray(st: seq<Stack>) returns (stacks: array<Stack>)
    ensures fresh(stacks) && stacks[..] == st
  {
    stacks := new Stack[|st|](i requires 0 <= i < |st| => st[i]);
  }

  /**
   * Part one: the top crates after the one-at-a-time crane has carried out every move;
   * None for a malformed input or a move naming a stack that does not exist.
   */
  method CalculateSupplyStacksPartOne(stacksBlock: string, movesBlock: string) returns (r: Option<string>)
    ensures var input := PuzzleInput(stacksBlock, movesBlock);
      r.Some? <==> input.Some? && ValidMoves(input.value.moves, |input.value.stacks|)
    ensures r.Some? ==> var input := PuzzleInput(stacksBlock, movesBlock).value;
      r.value == Tops(ReplayOne(input.stacks, input.moves))
  {
    var input := GetInput(stacksBlock, movesBlock);
    if input.None? || !ValidMoves(input.value.moves, |input.value.stacks|) {
      return None;
    }
    var stacks := ToArray(input.value.stacks);
    RearrangeOneByOne(stacks, input.value.moves);
    var result := MakeResultString(stacks);
    r := Some(result);
  }

  /**
   * Part two: the top crates after the crane that lifts whole blocks has carried out
   * every move; None for a malformed input or a move naming a stack that does not exist.
   */
  method CalculateSupplyStacksPartTwo(stacksBlock: string, movesBlock: string) returns (r: Option<string>)
    ensures var input := PuzzleInput(stacksBlock, movesBlock);
      r.Some? <==> input.Some? && ValidMoves(input.value.moves, |input.value.stacks|)
    ensures r.Some? ==> var input := PuzzleInput(stacksBlock, movesBlock).value;
      r.value == Tops(ReplayBlock(input.stacks, input.moves))
  {
    var input := GetInput(stacksBlock, movesBlock);
    if input.None? || !ValidMoves(input.value.moves, |input.value.stacks|) {
      return None;
    }
    var stacks := ToArray(input.value.stacks);
    RearrangeAsBlock(stacks, input.value.moves);
    var result := MakeResultString(stacks);
    r := Some(result);
  }

  // ---------------------------------------------------------------------------
  // The sample of the puzzle

  lemma ReplayAppend(st: seq<Stack>, moves: seq<Move>, m: Move)
    requires ValidMoves(moves, |st|) && ValidMove(m, |st|)
    ensures ValidMoves(moves + [m], |st|)
    ensures ReplayOne(st, moves + [m]) == MoveOne(ReplayOne(st, moves), m)
    ensures ReplayBlock(st, moves + [m]) == MoveBlock(ReplayBlock(st, moves), m)
  {
    assert (moves + [m])[..|moves|] == moves;
  }

  /** Stacks 1, 2 and 3 of the sample drawing, bottom first. */
  function SampleStacks(): seq<Stack>
  {
    [['Z', 'N'], ['M', 'C', 'D'], ['P']]
  }

  /** `move 1 from 2 to 1`, `move 3 from 1 to 3`, `move 2 from 2 to 1`, `move 1 from 1 to 2`. */
  function SampleMoves(): seq<Move>
  {
    [Move(1, 1, 0), Move(3, 0, 2), Move(2, 1, 0), Move(1, 0, 1)]
  }

  lemma SampleOneFirst()
    ensures MoveOne(SampleStacks(), Move(1, 1, 0)) == [['Z', 'N', 'D'], ['M', 'C'], ['P']]
  {
    var st := SampleStacks();
    var src := st[1];
    assert src[..2] == ['M', 'C'] && src[2..] == ['D'];
    assert Reversed(['D']) == ['D'] by { assert ['D'][1..] == []; }
    var r := st[1 := ['M', 'C']][0 := st[0] + ['D']];
    assert r[0] == ['Z', 'N', 'D'];
    assert r == [['Z', 'N', 'D'], ['M', 'C'], ['P']];
  }

  lemma SampleOneSecond()
    ensures MoveOne([['Z', 'N', 'D'], ['M', 'C'], ['P']], Move(3, 0, 2)) == [[], ['M', 'C'], ['P', 'D', 'N', 'Z']]
  {
    var st: seq<Stack> := [['Z', 'N', 'D'], ['M', 'C'], ['P']];
    var src := st[0];
    assert src[..0] == [] && src[0..] == src;
    assert Reversed(src) == ['D', 'N', 'Z'] by {
      assert src[1..] == ['N', 'D'] && ['N', 'D'][1..] == ['D'] && ['D'][1..] == [];
    }
    var r := st[0 := []][2 := st[2] + ['D', 'N', 'Z']];
    assert r[2] == ['P', 'D', 'N', 'Z'];
    assert r == [[], ['M', 'C'], ['P', 'D', 'N', 'Z']];
  }

  lemma SampleOneThird()
    ensures MoveOne([[], ['M', 'C'], ['P', 'D', 'N', 'Z']], Move(2, 1, 0)) == [['C', 'M'], [], ['P', 'D', 'N', 'Z']]
  {
    var st: seq<Stack> := [[], ['M', 'C'], ['P', 'D', 'N', 'Z']];
    var src := st[1];
    assert src[..0] == [] && src[0..] == src;
    assert Reversed(src) == ['C', 'M'] by { assert src[1..] == ['C'] && ['C'][1..] == []; }
    var r := st[1 := []][0 := st[0] + ['C', 'M']];
    assert r[0] == ['C', 'M'];
    assert r == [['C', 'M'], [], ['P', 'D', 'N', 'Z']];
  }

  lemma SampleOneFourth()
    ensures MoveOne([['C', 'M'], [], ['P', 'D', 'N', 'Z']], Move(1, 0, 1)) == [['C'], ['M'], ['P', 'D', 'N', 'Z']]
  {
    var st: seq<Stack> := [['C', 'M'], [], ['P', 'D', 'N', 'Z']];
    var src := st[0];
    assert src[..1] == ['C'] && src[1..] == ['M'];
    assert Reversed(['M']) == ['M'] by { assert ['M'][1..] == []; }
    var r := st[0 := ['C']][1 := st[1] + ['M']];
    assert r[1] == ['M'];
    assert r == [['C'], ['M'], ['P', 'D', 'N', 'Z']];
  }

  lemma SampleBlockFirst()
    ensures MoveBlock(SampleStacks(), Move(1, 1, 0)) == [['Z', 'N', 'D'], ['M', 'C'], ['P']]
  {
    var st := SampleStacks();
    var src := st[1];
    assert src[..2] == ['M', 'C'] && src[2..] == ['D'];
    var lifted := st[1 := ['M', 'C']];
    var r := lifted[0 := lifted[0] + ['D']];
    assert r[0] == ['Z', 'N', 'D'];
    assert r == [['Z', 'N', 'D'], ['M', 'C'], ['P']];
  }

  lemma SampleBlockSecond()
    ensures MoveBlock([['Z', 'N', 'D'], ['M', 'C'], ['P']], Move(3, 0, 2)) == [[], ['M', 'C'], ['P', 'Z', 'N', 'D']]
  {
    var st: seq<Stack> := [['Z', 'N', 'D'], ['M', 'C'], ['P']];
    var src := st[0];
    assert src[..0] == [] && src[0..] == src;
    var lifted := st[0 := []];
    var r := lifted[2 := lifted[2] + src];
    assert r[2] == ['P', 'Z', 'N', 'D'];
    assert r == [[], ['M', 'C'], ['P', 'Z', 'N', 'D']];
  }

  lemma SampleBlockThird()
    ensures MoveBlock([[], ['M', 'C'], ['P', 'Z', 'N', 'D']], Move(2, 1, 0)) == [['M', 'C'], [], ['P', 'Z', 'N', 'D']]
  {
    var st: seq<Stack> := [[], ['M', 'C'], ['P', 'Z', 'N', 'D']];
    var src := st[1];
    assert src[..0] == [] && src[0..] == src;
    var lifted := st[1 := []];
    var r := lifted[0 := lifted[0] + src];
    assert r[0] == ['M', 'C'];
    assert r == [['M', 'C'], [], ['P', 'Z', 'N', 'D']];
  }

  lemma SampleBlockFourth()
    ensures MoveBlock([['M', 'C'], [], ['P', 'Z', 'N', 'D']], Move(1, 0, 1)) == [['M'], ['C'], ['P', 'Z', 'N', 'D']]
  {
    var st: seq<Stack> := [['M', 'C'], [], ['P', 'Z', 'N', 'D']];
    var src := st[0];
    assert src[..1] == ['M'] && src[1..] == ['C'];
    var lifted := st[0 := ['M']];
    var r := lifted[1 := lifted[1] + ['C']];
    assert r[1] == ['C'];
    assert r == [['M'], ['C'], ['P', 'Z', 'N', 'D']];
  }

  lemma TopsOfThree(a: Stack, b: Stack, c: Stack)
    ensures Tops([a, b, c]) == Top(a) + Top(b) + Top(c)
  {
    assert [a][..0] == [];
    assert Tops([a]) == Top(a);
    assert [a, b][..1] == [a];
    assert Tops([a, b]) == Top(a) + Top(b);
    assert [a, b, c][..2] == [a, b];
  }

  /** The sample, part one: C, M and Z end on top. */
  lemma SamplePartOne()
    ensures ValidMoves(SampleMoves(), |SampleStacks()|)
    ensures Tops(ReplayOne(SampleStacks(), SampleMoves())) == "CMZ"
  {
    var st, ms := SampleStacks(), SampleMoves();
    var p1 := [ms[0]];
    var p2 := p1 + [ms[1]];
    var p3 := p2 + [ms[2]];
    assert p3 + [ms[3]] == ms;
    ReplayAppend(st, [], ms[0]);
    assert [] + [ms[0]] == p1;
    SampleOneFirst();
    ReplayAppend(st, p1, ms[1]);
    SampleOneSecond();
    ReplayAppend(st, p2, ms[2]);
    SampleOneThird();
    ReplayAppend(st, p3, ms[3]);
    SampleOneFourth();
    TopsOfThree(['C'], ['M'], ['P', 'D', 'N', 'Z']);
  }

  /** The sample, part two: M, C and D end on top. */
  lemma SamplePartTwo()
    ensures ValidMoves(SampleMoves(), |SampleStacks()|)
    ensures Tops(ReplayBlock(SampleStacks(), SampleMoves())) == "MCD"
  {
    var st, ms := SampleStacks(), SampleMoves();
    var p1 := [ms[0]];
    var p2 := p1 + [ms[1]];
    var p3 := p2 + [ms[2]];
    assert p3 + [ms[3]] == ms;
    ReplayAppend(st, [], ms[0]);
    assert [] + [ms[0]] == p1;
    SampleBlockFirst();
    ReplayAppend(st, p1, ms[1]);
    SampleBlockSecond();
    ReplayAppend(st, p2, ms[2]);
    SampleBlockThird();
    ReplayAppend(st, p3, ms[3]);
    SampleBlockFourth();
    TopsOfThree(['M'], ['C'], ['P', 'Z', 'N', 'D']);
  }

  /** The drawing of the sample, top row first, without its row of stack numbers. */
  function SampleRows(): seq<string>
  {
    ["    [D]    ", "[N] [C]    ", "[Z] [M] [P]"]
  }

  lemma SampleRowOne()
    ensures CrateAt("    [D]    ", 0) == [] && CrateAt("    [D]    ", 1) == ['D'] && CrateAt("    [D]    ", 2) == []
  {
    var r := "    [D]    ";
    assert r[0] == ' ' && r[1] == ' ' && r[2] == ' ';
    assert r[4] == '[' && r[5] == 'D';
    assert r[8] == ' ' && r[9] == ' ' && r[10] == ' ';
    assert r[0..3] == [' ', ' ', ' '];
    assert r[8..11] == [' ', ' ', ' '];
    assert !IsBlank(r[4]);
  }

  lemma SampleRowTwo()
    ensures CrateAt("[N] [C]    ", 0) == ['N'] && CrateAt("[N] [C]    ", 1) == ['C'] && CrateAt("[N] [C]    ", 2) == []
  {
    var r := "[N] [C]    ";
    assert r[0] == '[' && r[1] == 'N';
    assert r[4] == '[' && r[5] == 'C';
    assert r[8] == ' ' && r[9] == ' ' && r[10] == ' ';
    assert r[8..11] == [' ', ' ', ' '];
    assert !IsBlank(r[0]) && !IsBlank(r[4]);
  }

  lemma SampleRowThree()
    ensures CrateAt("[Z] [M] [P]", 0) == ['Z'] && CrateAt("[Z] [M] [P]", 1) == ['M'] && CrateAt("[Z] [M] [P]", 2) == ['P']
  {
    var r := "[Z] [M] [P]";
    assert r[0] == '[' && r[1] == 'Z';
    assert r[4] == '[' && r[5] == 'M';
    assert r[8] == '[' && r[9] == 'P';
    assert !IsBlank(r[0]) && !IsBlank(r[4]) && !IsBlank(r[8]);
  }

  /** The three columns of the sample drawing, bottom first. */
  lemma SampleColumns()
    ensures Width(SampleRows()) == 3
    ensures Column(SampleRows(), 0) == ['Z', 'N']
    ensures Column(SampleRows(), 1) == ['M', 'C', 'D']
    ensures Column(SampleRows(), 2) == ['P']
  {
    var rows := SampleRows();
    var r0, r1, r2 := rows[0], rows[1], rows[2];
    assert rows[..2] == [r0, r1] && [r0, r1][..1] == [r0] && [r0][..0] == [];
    assert |r0| == 11 && |r1| == 11 && |r2| == 11;
    assert Width([r0]) == 3;
    assert Width([r0, r1]) == 3;
    assert Width(rows) == 3;
    SampleRowOne();
    SampleRowTwo();
    SampleRowThree();
    forall i | 0 <= i < 3
      ensures Column(rows, i) == CrateAt(r2, i) + CrateAt(r1, i) + CrateAt(r0, i)
    {
      assert Column([r0], i) == CrateAt(r0, i);
    }
  }

  /** The sample drawing reads as stacks Z N, M C D and P, bottom first. */
  lemma SampleDiagram()
    ensures WellFormedRows(SampleRows())
    ensures DiagramStacks(SampleRows()) == SampleStacks()
  {
    var rows := SampleRows();
    forall r | 0 <= r < |rows| ensures WellFormedRow(rows[r]) {
      assert |rows[r]| == 11;
    }
    SampleColumns();
    assert ReadAs(SampleStacks(), rows);
    ReadAsDiagram(SampleStacks(), rows);
  }

  /** The move lines of the sample. */
  function SampleMoveLines(): seq<string>
  {
    [MoveLine(1, 2, 1), MoveLine(3, 1, 3), MoveLine(2, 2, 1), MoveLine(1, 1, 2)]
  }

  /** A move line is a single line. */
  lemma MoveLineOneLine(count: nat, from: nat, to: nat)
    ensures '\n' !in MoveLine(count, from, to)
  {
    var words := ["move", Numeral(count), "from", Numeral(from), "to", Numeral(to)];
    assert IsBlank('\n');
    forall i | 0 <= i < |words| ensures '\n' !in words[i] {
    }
    JoinWithout(words, ' ', '\n');
  }

  lemma SampleMoveLineParses(i: int)
    requires 0 <= i < 4
    ensures '\n' !in SampleMoveLines()[i]
    ensures ParseMove(SampleMoveLines()[i]) == Some(SampleMoves()[i])
  {
    var m := SampleMoves()[i];
    assert SampleMoveLines()[i] == MoveLine(m.count, m.from + 1, m.to + 1);
    MoveLineOneLine(m.count, m.from + 1, m.to + 1);
    ParseMoveLine(m.count, m.from + 1, m.to + 1);
  }

  /** The move lines of the sample read as its moves. */
  lemma SampleMovesParse()
    ensures MovesOf(Split(Join(SampleMoveLines(), '\n'), '\n')) == Some(SampleMoves())
  {
    var lines, moves := SampleMoveLines(), SampleMoves();
    forall i | 0 <= i < 4
      ensures '\n' !in lines[i] && ParseMove(lines[i]) == Some(moves[i])
    {
      SampleMoveLineParses(i);
    }
    SplitJoin(lines, '\n');
    MovesOfAll(lines, moves);
  }

  /** The stacks block of the sample, its row of stack numbers last, reads as its drawing. */
  lemma SampleRowsParse()
    ensures DiagramRows(Join(SampleRows() + [" 1   2   3 "], '\n')) == SampleRows()
  {
    var rows := SampleRows();
    forall r | 0 <= r < |rows| ensures '\n' !in rows[r] {
    }
    DiagramRowsOf(rows, " 1   2   3 ");
  }

  /** The two blocks of the sample read as its stacks and its moves. */
  lemma SampleInput()
    ensures PuzzleInput(Join(SampleRows() + [" 1   2   3 "], '\n'), Join(SampleMoveLines(), '\n'))
      == Some(Input(SampleStacks(), SampleMoves()))
  {
    SampleRowsParse();
    SampleDiagram();
    SampleMovesParse();
  }
}
