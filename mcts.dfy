/** The Monte Carlo tree search agent.

    One search tree hangs below a root whose children are the agent's legal
    moves; each child is searched on its own (in the program, by its own
    goroutine, which only touches that child's subtree), and the move of the
    child with the best win rate is played. */
module Mcts {
  import opened Chess
  import opened Scores
  import opened MctsReward

  /** `iterationsBetweenTimeChecks`. */
  const IterationsBetweenTimeChecks: nat := 100

  /** `calcUCB` of a node with win total `w` after `n` visits, when its
      goroutine has completed `total` iterations.  The formula (a square
      root and a logarithm in floating point) is left abstract. */
  type Ucb = (real, nat, nat) -> real

  /** The random draws of the rollouts of one goroutine, by iteration. */
  type DrawStream = nat -> Draws

  /** A `*node` of the search tree.  `Repr` is the set of nodes of its
      subtree, itself included. */
  class Node {
    var w: real
    var n: nat
    var mov: Move
    var pos: Position
    var children: seq<Node>
    ghost var Repr: set<object>

    /** The subtree is a tree (children's subtrees are disjoint and do not
        contain their parent) and every node has won at most once per visit. */
    ghost predicate Valid()
      reads this, Repr
      decreases Repr
    {
      && this in Repr
      && 0.0 <= w <= n as real
      && (forall i :: 0 <= i < |children| ==>
            && children[i] in Repr
            && children[i].Repr <= Repr
            && this !in children[i].Repr
            && children[i].Valid())
      && (forall i, j :: 0 <= i < j < |children| ==> children[i].Repr !! children[j].Repr)
    }

    /** `&node{w: 0, n: 0, mov: mov, pos: &pos, children: []}`. */
    constructor (mov: Move, pos: Position)
      ensures Valid() && Repr == {this}
      ensures this.w == 0.0 && this.n == 0 && this.mov == mov && this.pos == pos && children == []
    {
      this.w := 0.0;
      this.n := 0;
      this.mov := mov;
      this.pos := pos;
      this.children := [];
      Repr := {this};
    }

    /** `append` of a new, unvisited leaf for the move `m` that reaches `q`. */
    method AddChild(m: Move, q: Position) returns (child: Node)
      requires Valid()
      modifies this
      ensures Valid() && fresh(Repr - old(Repr))
      ensures w == old(w) && n == old(n) && mov == old(mov) && pos == old(pos)
      ensures children == old(children) + [child] && fresh(child)
      ensures child.mov == m && child.pos == q && child.w == 0.0 && child.n == 0 && child.children == []
    {
      child := new Node(m, q);
      children := children + [child];
      Repr := Repr + child.Repr;
    }

    /** Points the node at another position. */
    method SetPos(q: Position)
      requires Valid()
      modifies this
      ensures Valid() && Repr == old(Repr) && children == old(children)
      ensures w == old(w) && n == old(n) && mov == old(mov) && pos == q
    {
      pos := q;
    }

    /** The update of a selected child after its iteration: one more visit
        and the result added to its wins. */
    method Record(result: real)
      requires Valid() && 0.0 <= result <= 1.0
      modifies this
      ensures Valid() && Repr == old(Repr) && children == old(children)
      ensures pos == old(pos) && mov == old(mov)
      ensures n == old(n) + 1 && w == old(w) + result
    {
      n := n + 1;
      w := w + result;
    }
  }

  /** A node whose own fields are as they were. */
  twostate predicate Kept(c: Node)
    reads c
  {
    && c.w == old(c.w) && c.n == old(c.n) && c.mov == old(c.mov) && c.pos == old(c.pos)
    && c.children == old(c.children) && c.Repr == old(c.Repr)
  }

  /** The visit statistics of a node. */
  datatype Stat = Stat(w: real, n: nat)

  ghost function StatsOf(nodes: seq<Node>): (s: seq<Stat>)
    reads set i | 0 <= i < |nodes| :: nodes[i]
    ensures |s| == |nodes|
    ensures forall i :: 0 <= i < |nodes| ==> s[i] == Stat(nodes[i].w, nodes[i].n)
  {
    if nodes == [] then []
    else StatsOf(nodes[..|nodes| - 1]) + [Stat(nodes[|nodes| - 1].w, nodes[|nodes| - 1].n)]
  }

  /** The UCB value of every child. */
  function UcbScores(ucb: Ucb, total: nat, stats: seq<Stat>): (us: seq<real>)
    ensures |us| == |stats|
    ensures forall j :: 0 <= j < |stats| ==> us[j] == ucb(stats[j].w, stats[j].n, total)
  {
    seq(|stats|, j requires 0 <= j < |stats| => ucb(stats[j].w, stats[j].n, total))
  }

  /** The child `selectNode` picks: the first never-visited child if there
      is one, otherwise the first child of greatest UCB, or the first child
      when no UCB exceeds -MaxScore. */
  ghost predicate IsSelection(ucb: Ucb, total: nat, stats: seq<Stat>, k: int)
  {
    && 0 <= k < |stats|
    && if exists j :: 0 <= j < |stats| && stats[j].n == 0 then
         stats[k].n == 0 && forall j :: 0 <= j < k ==> stats[j].n != 0
       else
         var us := UcbScores(ucb, total, stats);
         IsFirstMax(us, -MaxScore, k) || (k == 0 && IsFirstMax(us, -MaxScore, -1))
  }

  /** The selection rule is deterministic. */
  lemma SelectionUnique(ucb: Ucb, total: nat, stats: seq<Stat>, k1: int, k2: int)
    requires IsSelection(ucb, total, stats, k1) && IsSelection(ucb, total, stats, k2)
    ensures k1 == k2
  {
    if !exists j :: 0 <= j < |stats| && stats[j].n == 0 {
      var us := UcbScores(ucb, total, stats);
      if IsFirstMax(us, -MaxScore, k1) && IsFirstMax(us, -MaxScore, k2) {
        FirstMaxUnique(us, -MaxScore, k1, k2);
      } else if IsFirstMax(us, -MaxScore, k1) {
        FirstMaxUnique(us, -MaxScore, k1, -1);
      } else if IsFirstMax(us, -MaxScore, k2) {
        FirstMaxUnique(us, -MaxScore, -1, k2);
      }
    }
  }

  /** `selectNode`, returning the index of the selected child. */
  method SelectNode(ucb: Ucb, total: nat, node: Node) returns (k: nat)
    requires |node.children| > 0
    ensures IsSelection(ucb, total, StatsOf(node.children), k)
  {
    var children := node.children;
    ghost var stats := StatsOf(children);
    for i := 0 to |children|
      invariant forall j :: 0 <= j < i ==> stats[j].n != 0
    {
      if children[i].n == 0 {
        return i;
      }
    }
    ghost var us := UcbScores(ucb, total, stats);
    var maxUCB := -MaxScore;
    k := 0;
    ghost var best := -1;
    for i := 0 to |children|
      invariant -1 <= best < i
      invariant IsFirstMax(us[..i], -MaxScore, best)
      invariant k == if best == -1 then 0 else best
      invariant maxUCB == if best == -1 then -MaxScore else us[best]
    {
      var u := ucb(children[i].w, children[i].n, total);
      assert us[..i + 1] == us[..i] + [u];
      FirstMaxStep(us[..i], -MaxScore, best, u);
      if u > maxUCB {
        maxUCB := u;
        k := i;
        best := i;
      }
    }
    assert us[..|children|] == us;
  }

  /** `fillInChildren`: one new, unvisited child per legal move, reached by
      playing that move. */
  method FillInChildren(e: Engine, node: Node)
    requires node.Valid()
    modifies node
    ensures node.Valid() && fresh(node.Repr - old(node.Repr))
    ensures node.w == old(node.w) && node.n == old(node.n) && node.mov == old(node.mov) && node.pos == old(node.pos)
    ensures var k := |old(node.children)|;
      && |node.children| == k + |e.legalMoves(node.pos)|
      && node.children[..k] == old(node.children)
      && forall i :: k <= i < |node.children| ==>
           && fresh(node.children[i])
           && node.children[i].mov == e.legalMoves(node.pos)[i - k]
           && node.children[i].pos == e.play(node.pos, e.legalMoves(node.pos)[i - k])
           && node.children[i].w == 0.0 && node.children[i].n == 0 && node.children[i].children == []
  {
    var legalMoves := e.legalMoves(node.pos);
    ghost var k := |node.children|;
    for i := 0 to |legalMoves|
      invariant node.Valid() && fresh(node.Repr - old(node.Repr))
      invariant node.w == old(node.w) && node.n == old(node.n) && node.mov == old(node.mov) && node.pos == old(node.pos)
      invariant |node.children| == k + i
      invariant node.children[..k] == old(node.children)
      invariant forall j :: k <= j < |node.children| ==>
          && fresh(node.children[j])
          && node.children[j].mov == legalMoves[j - k]
          && node.children[j].pos == e.play(node.pos, legalMoves[j - k])
          && node.children[j].w == 0.0 && node.children[j].n == 0 && node.children[j].children == []
    {
      var newPos := e.play(node.pos, legalMoves[i]);
      var newChild := node.AddChild(legalMoves[i], newPos);
    }
  }

  /** The node's position is won for the agent: the side to move, which is
      not the agent, is checkmated. */
  predicate Won(e: Engine, p: Position, agentColor: Color)
  {
    e.isCheckMate(p) && p.turn != agentColor
  }

  /** The node's position is over: stalemate or checkmate. */
  predicate Over(e: Engine, p: Position)
  {
    e.isStaleMate(p) || e.isCheckMate(p)
  }

  /** What a descent below an expanded `node` did: `k` is the child
      `selectNode` picked on the statistics before the descent; every other
      child keeps its own fields (that its whole subtree is unchanged is
      stated beside each use); the picked child was played out from `node`'s
      position (never visited before) or iterated, and then counted and
      credited with `result`. */
  twostate predicate Descended(e: Engine, ucb: Ucb, total: nat, draws: Draws, agentColor: Color,
                               node: Node, k: int, result: real)
    reads node, set i | 0 <= i < |node.children| :: node.children[i]
  {
    && node.children == old(node.children)
    && IsSelection(ucb, total, old(StatsOf(node.children)), k)
    && (forall j :: 0 <= j < |node.children| && j != k ==> Kept(node.children[j]))
    && var child := node.children[k];
       && child.pos == old(child.pos) && child.mov == old(child.mov)
       && (old(child.n) == 0 ==>
             && child.n == 1 && child.w == old(child.w) + result && child.children == old(child.children)
             && result == Rollout(e, node.pos, agentColor, draws, 0))
       && (old(child.n) != 0 ==>
             && child.n == old(child.n) + (if Over(e, child.pos) then 2 else 1)
             && child.w == old(child.w) + result + (if Won(e, child.pos, agentColor) then 1.0 else 0.0))
  }

  /** `iterate`: one descent from `node`.  A finished position is scored and
      counted at once: a win for the agent counts as a won visit, any other
      end as a lost one.  Otherwise the node is expanded if it has no
      children and the descent continues below it, leaving `node`'s own
      statistics to its caller.  `k` is the index of the selected child, -1
      when there is none. */
  method Iterate(e: Engine, ucb: Ucb, total: nat, draws: Draws, agentColor: Color, node: Node)
    returns (result: real, ghost k: int)
    requires node.Valid() && StuckIsTerminal(e)
    modifies node.Repr
    ensures node.Valid() && fresh(node.Repr - old(node.Repr))
    ensures node.pos == old(node.pos) && node.mov == old(node.mov)
    ensures result == 0.0 || result == 0.5 || result == 1.0
    ensures node.n == old(node.n) + (if Over(e, node.pos) then 1 else 0)
    ensures node.w == old(node.w) + (if Won(e, node.pos, agentColor) then 1.0 else 0.0)
    ensures Won(e, node.pos, agentColor) ==> result == 1.0
    ensures Over(e, node.pos) && !Won(e, node.pos, agentColor) ==> result == 0.0
    ensures Over(e, node.pos) ==> node.children == old(node.children)
    ensures !Over(e, node.pos) && old(node.children) == [] ==> Expanded(e, draws, agentColor, node, result)
    ensures !Over(e, node.pos) && old(node.children) != [] ==> Descended(e, ucb, total, draws, agentColor, node, k, result)
    ensures !Over(e, node.pos) && old(node.children) != [] ==>
      forall j :: 0 <= j < |node.children| && j != k ==> unchanged(old(node.children[j].Repr))
    decreases node.Repr, 3
  {
    if e.isCheckMate(node.pos) && node.pos.turn != agentColor {
      node.n := node.n + 1;
      node.w := node.w + 1.0;
      return 1.0, -1;
    }
    if e.isStaleMate(node.pos) || e.isCheckMate(node.pos) {
      node.n := node.n + 1;
      return 0.0, -1;
    }
    if |node.children| == 0 {
      result := Expand(e, ucb, total, draws, agentColor, node);
      k := 0;
    } else {
      result, k := Descend(e, ucb, total, draws, agentColor, node, node.Repr);
    }
  }

  /** What the first descent through a leaf did: one child per legal move,
      each reached by its move; the first was played out from the leaf's
      position and credited, the others are unvisited. */
  twostate predicate Expanded(e: Engine, draws: Draws, agentColor: Color, node: Node, result: real)
    reads node, set i | 0 <= i < |node.children| :: node.children[i]
  {
    && |node.children| == |e.legalMoves(node.pos)|
    && (forall i :: 0 <= i < |node.children| ==>
          && fresh(node.children[i])
          && node.children[i].mov == e.legalMoves(node.pos)[i]
          && node.children[i].pos == e.play(node.pos, e.legalMoves(node.pos)[i])
          && node.children[i].children == []
          && node.children[i].n == (if i == 0 then 1 else 0)
          && node.children[i].w == (if i == 0 then result else 0.0))
    && result == Rollout(e, node.pos, agentColor, draws, 0)
  }

  /** The expansion of an unfinished leaf followed by its first descent,
      which, every child being unvisited, selects the first. */
  method Expand(e: Engine, ucb: Ucb, total: nat, draws: Draws, agentColor: Color, node: Node)
    returns (result: real)
    requires node.Valid() && StuckIsTerminal(e) && node.children == [] && !Over(e, node.pos)
    modifies node.Repr
    ensures node.Valid() && fresh(node.Repr - old(node.Repr))
    ensures node.pos == old(node.pos) && node.mov == old(node.mov)
    ensures node.n == old(node.n) && node.w == old(node.w)
    ensures result == 0.0 || result == 0.5 || result == 1.0
    ensures Expanded(e, draws, agentColor, node, result)
    decreases node.Repr, 2
  {
    FillInChildren(e, node);
    UnfinishedPositionHasMoves(e, node.pos);
    ghost var kids := node.children;
    assert forall i :: 0 <= i < |kids| ==> fresh(kids[i]);
    ghost var stats := StatsOf(node.children);
    var sel := SelectNode(ucb, total, node);
    assert StatsOf(node.children) == stats;
    assert stats[0].n == 0;
    assert sel == 0;
    ghost var legal := e.legalMoves(node.pos);
    label Filled:
    result := VisitChild(e, ucb, total, draws, agentColor, node, sel, old(node.Repr));
    assert node.children == kids;
    forall i | 0 < i < |node.children|
      ensures node.children[i].mov == legal[i] && node.children[i].pos == e.play(node.pos, legal[i])
      ensures node.children[i].children == [] && node.children[i].n == 0 && node.children[i].w == 0.0
    {
      assert Kept@Filled(node.children[i]);
    }
  }

  /** The part of `iterate` below an unfinished, expanded node: a child is
      selected, and either a playout is run (for a child never visited; the
      playout starts from `node`'s own position, not the child's) or the
      descent continues into the child.  The selected child is then counted
      and credited with the result; `node` itself is counted by its caller,
      and every other child's subtree is left as it was.  `bound` (for
      termination only) holds the subtree of every child visited before. */
  method Descend(e: Engine, ucb: Ucb, total: nat, draws: Draws, agentColor: Color, node: Node, ghost bound: set<object>)
    returns (result: real, ghost k: int)
    requires node.Valid() && StuckIsTerminal(e) && |node.children| > 0
    requires forall i :: 0 <= i < |node.children| && node.children[i].n != 0 ==> node.children[i].Repr < bound
    modifies node.Repr
    ensures node.Valid() && fresh(node.Repr - old(node.Repr))
    ensures node.pos == old(node.pos) && node.mov == old(node.mov)
    ensures node.n == old(node.n) && node.w == old(node.w)
    ensures result == 0.0 || result == 0.5 || result == 1.0
    ensures Descended(e, ucb, total, draws, agentColor, node, k, result)
    ensures forall j :: 0 <= j < |node.children| && j != k ==> unchanged(old(node.children[j].Repr))
    ensures old(node.children[0].n) == 0 ==> k == 0
    decreases bound, 1
  {
    ghost var stats := StatsOf(node.children);
    var sel := SelectNode(ucb, total, node);
    assert StatsOf(node.children) == stats;
    assert IsSelection(ucb, total, stats, sel);
    assert node.children[0].n == 0 ==> stats[0].n == 0;
    result := VisitChild(e, ucb, total, draws, agentColor, node, sel, bound);
    k := sel;
  }

  /** The selected child's share of `iterate`: a playout from the parent's
      position when the child was never visited, otherwise an iteration of
      the child; then the child is counted and credited.  No other child
      changes. */
  method VisitChild(e: Engine, ucb: Ucb, total: nat, draws: Draws, agentColor: Color, node: Node, sel: nat,
                    ghost bound: set<object>)
    returns (result: real)
    requires node.Valid() && StuckIsTerminal(e) && sel < |node.children|
    requires node.children[sel].n != 0 ==> node.children[sel].Repr < bound
    modifies node.Repr
    ensures node.Valid() && fresh(node.Repr - old(node.Repr))
    ensures node.pos == old(node.pos) && node.mov == old(node.mov)
    ensures node.n == old(node.n) && node.w == old(node.w) && node.children == old(node.children)
    ensures result == 0.0 || result == 0.5 || result == 1.0
    ensures forall j :: 0 <= j < |node.children| && j != sel ==> Kept(node.children[j])
    ensures forall j :: 0 <= j < |node.children| && j != sel ==> unchanged(old(node.children[j].Repr))
    ensures var child := node.children[sel];
      && child.pos == old(child.pos) && child.mov == old(child.mov)
      && (old(child.n) == 0 ==>
            && child.n == 1 && child.w == old(child.w) + result && child.children == old(child.children)
            && result == Rollout(e, node.pos, agentColor, draws, 0))
      && (old(child.n) != 0 ==>
            && child.n == old(child.n) + (if Over(e, child.pos) then 2 else 1)
            && child.w == old(child.w) + result + (if Won(e, child.pos, agentColor) then 1.0 else 0.0))
    decreases bound, 0
  {
    var selected := node.children[sel];
    if selected.n == 0 {
      result := RandomRollout(e, node.pos, agentColor, draws);
    } else {
      ghost var k;
      result, k := Iterate(e, ucb, total, draws, agentColor, selected);
    }
    selected.Record(result);
    node.Repr := node.Repr + selected.Repr;
    forall j | 0 <= j < |node.children| && j != sel
      ensures node.children[j].Repr == old(node.children[j].Repr)
      ensures unchanged(old(node.children[j].Repr))
      ensures node.children[j].Valid()
      ensures node.children[j].Repr !! selected.Repr
    {
    }
  }

  /** `concurrentIterate` for one child of the root, with the clock replaced
      by the number `rounds` of batches of `IterationsBetweenTimeChecks`
      iterations it lets through.  The iteration counter starts at 0, since
      every goroutine gets a fresh agent, and the `i`-th iteration draws its
      playout moves from `draws(i)`.  A finished position gains two visits
      per iteration (one from `iterate`, one here), any other one. */
  method ConcurrentIterate(e: Engine, ucb: Ucb, draws: DrawStream, node: Node, agentColor: Color, rounds: nat)
    requires node.Valid() && StuckIsTerminal(e)
    modifies node.Repr
    ensures node.Valid() && fresh(node.Repr - old(node.Repr))
    ensures node.pos == old(node.pos) && node.mov == old(node.mov)
    ensures node.n == old(node.n) + (if Over(e, node.pos) then 2 else 1) * IterationsBetweenTimeChecks * rounds
    ensures node.n >= old(node.n) + IterationsBetweenTimeChecks * rounds
    ensures Won(e, node.pos, agentColor) ==> node.w == old(node.w) + (2 * IterationsBetweenTimeChecks * rounds) as real
    ensures Over(e, node.pos) && !Won(e, node.pos, agentColor) ==> node.w == old(node.w)
  {
    ghost var per := if Over(e, node.pos) then 2 else 1;
    var total: nat := 0;
    for round := 0 to rounds
      invariant node.Valid() && fresh(node.Repr - old(node.Repr))
      invariant node.pos == old(node.pos) && node.mov == old(node.mov)
      invariant total == IterationsBetweenTimeChecks * round
      invariant node.n == old(node.n) + per * total
      invariant Won(e, node.pos, agentColor) ==> node.w == old(node.w) + (2 * total) as real
      invariant Over(e, node.pos) && !Won(e, node.pos, agentColor) ==> node.w == old(node.w)
    {
      for i := 0 to IterationsBetweenTimeChecks
        invariant node.Valid() && fresh(node.Repr - old(node.Repr))
        invariant node.pos == old(node.pos) && node.mov == old(node.mov)
        invariant total == IterationsBetweenTimeChecks * round + i
        invariant node.n == old(node.n) + per * total
        invariant Won(e, node.pos, agentColor) ==> node.w == old(node.w) + (2 * total) as real
        invariant Over(e, node.pos) && !Won(e, node.pos, agentColor) ==> node.w == old(node.w)
      {
        var result;
        ghost var k;
        result, k := Iterate(e, ucb, total, draws(total), agentColor, node);
        node.Record(result);
        total := total + 1;
      }
    }
  }

  /** The position reached by playing `ms` one after the other from `p`. */
  function Played(e: Engine, p: Position, ms: seq<Move>): Position
  {
    if ms == [] then p else e.play(Played(e, p, ms[..|ms| - 1]), ms[|ms| - 1])
  }

  /** `makeParentNode`: a root with one unvisited child per legal move of
      `p`.  As written, each child's position is a copy of the loop's
      position taken before that same position has the child's move played
      on it, so the `i`-th child holds the position after the first `i`
      moves played in sequence (the first child holds `p` itself), and the
      root, which points at that variable, ends with all of them played. */
  method MakeParentNode(e: Engine, p: Position) returns (root: Node)
    ensures root.Valid() && fresh(root.Repr)
    ensures root.w == 0.0 && root.n == 0 && root.mov == NullMove
    ensures root.pos == Played(e, p, e.legalMoves(p))
    ensures |root.children| == |e.legalMoves(p)|
    ensures forall i :: 0 <= i < |root.children| ==>
      && root.children[i].mov == e.legalMoves(p)[i]
      && root.children[i].pos == Played(e, p, e.legalMoves(p)[..i])
      && root.children[i].w == 0.0 && root.children[i].n == 0 && root.children[i].children == []
  {
    var legalMoves := e.legalMoves(p);
    var q := p;
    root := new Node(NullMove, p);
    for i := 0 to |legalMoves|
      invariant root.Valid() && fresh(root.Repr)
      invariant root.w == 0.0 && root.n == 0 && root.mov == NullMove
      invariant q == Played(e, p, legalMoves[..i])
      invariant |root.children| == i
      invariant forall j :: 0 <= j < i ==>
        && root.children[j].mov == legalMoves[j]
        && root.children[j].pos == Played(e, p, legalMoves[..j])
        && root.children[j].w == 0.0 && root.children[j].n == 0 && root.children[j].children == []
    {
      var move := legalMoves[i];
      var newPos := q;
      q := e.play(q, move);
      assert legalMoves[..i + 1][..i] == legalMoves[..i];
      var child := root.AddChild(move, newPos);
    }
    assert legalMoves[..|legalMoves|] == legalMoves;
    root.SetPos(q);
  }

  /** The win rate `bestMove` compares: wins over visits, or, for a child
      never visited, the rate 0/0, which as a floating-point NaN compares
      greater than nothing; it is written here as -MaxScore, which the
      strict comparison against a best of at least -MaxScore never picks
      either. */
  function Rates(stats: seq<Stat>): (rs: seq<real>)
    ensures |rs| == |stats|
    ensures forall j :: 0 <= j < |stats| ==> rs[j] == if stats[j].n == 0 then -MaxScore else stats[j].w / stats[j].n as real
  {
    seq(|stats|, j requires 0 <= j < |stats| => if stats[j].n == 0 then -MaxScore else stats[j].w / stats[j].n as real)
  }

  /** `bestMove`: the move of the first child with the highest win rate,
      or of the first child when none was ever visited.  `k` is the index
      of the chosen child, -1 in that last case. */
  method BestMove(node: Node) returns (move: Move, ghost k: int)
    requires |node.children| > 0
    ensures -1 <= k < |node.children|
    ensures IsFirstMax(Rates(StatsOf(node.children)), -MaxScore, k)
    ensures move == node.children[if k == -1 then 0 else k].mov
  {
    var children := node.children;
    ghost var rs := Rates(StatsOf(children));
    move := children[0].mov;
    var bestMoveScore := -MaxScore;
    k := -1;
    for i := 0 to |children|
      invariant -1 <= k < i
      invariant IsFirstMax(rs[..i], -MaxScore, k)
      invariant bestMoveScore == if k == -1 then -MaxScore else rs[k]
      invariant move == children[if k == -1 then 0 else k].mov
    {
      var child := children[i];
      var score := if child.n == 0 then -MaxScore else child.w / child.n as real;
      assert rs[..i + 1] == rs[..i] + [score];
      FirstMaxStep(rs[..i], -MaxScore, k, score);
      if score > bestMoveScore {
        bestMoveScore := score;
        move := child.mov;
        k := i;
      }
    }
    assert rs[..|children|] == rs;
  }

  /** Every node has won at most once per visit. */
  ghost predicate WinsWithinVisits(stats: seq<Stat>)
  {
    forall j :: 0 <= j < |stats| ==> 0.0 <= stats[j].w <= stats[j].n as real
  }

  /** The children of a node of a valid tree have won at most once per visit. */
  lemma ValidWinsWithinVisits(node: Node)
    requires node.Valid()
    ensures WinsWithinVisits(StatsOf(node.children))
  {
    forall j | 0 <= j < |node.children|
      ensures 0.0 <= node.children[j].w <= node.children[j].n as real
    {
      assert node.children[j].Valid();
    }
  }

  /** Every visited child's rate lies in [0, 1]. */
  lemma RatesInUnitInterval(stats: seq<Stat>)
    requires WinsWithinVisits(stats)
    ensures forall j :: 0 <= j < |stats| && stats[j].n > 0 ==> 0.0 <= Rates(stats)[j] <= 1.0
  {
    forall j | 0 <= j < |stats| && stats[j].n > 0
      ensures 0.0 <= Rates(stats)[j] <= 1.0
    {
      assert stats[j].w / stats[j].n as real <= stats[j].n as real / stats[j].n as real;
    }
  }

  /** Child `k` was visited and no visited child has a higher win rate. */
  ghost predicate VisitedBest(stats: seq<Stat>, k: int)
  {
    && 0 <= k < |stats| && stats[k].n > 0
    && forall j :: 0 <= j < |stats| && stats[j].n > 0 ==>
         stats[j].w / stats[j].n as real <= stats[k].w / stats[k].n as real
  }

  /** Once any child was visited, `bestMove` picks a visited child of the
      highest rate. */
  lemma BestIsVisited(stats: seq<Stat>, k: int)
    requires WinsWithinVisits(stats) && IsFirstMax(Rates(stats), -MaxScore, k)
    requires exists j :: 0 <= j < |stats| && stats[j].n > 0
    ensures VisitedBest(stats, k)
  {
    RatesInUnitInterval(stats);
    var j :| 0 <= j < |stats| && stats[j].n > 0;
    assert Rates(stats)[j] >= 0.0 > -MaxScore;
  }

  /** The goroutines of `GetMove`: each child of the root is searched by its
      own `concurrentIterate`, for the side to move at the root.  They touch
      disjoint subtrees, so they are run one after the other here.
      `random(i)` holds the playout draws of the `i`-th child's goroutine and
      `rounds(i)` the number of batches its clock lets through. */
  method SearchChildren(e: Engine, ucb: Ucb, random: nat -> DrawStream, rounds: nat -> nat,
                        root: Node, agentColor: Color)
    requires root.Valid() && StuckIsTerminal(e)
    modifies root.Repr
    ensures root.Valid() && fresh(root.Repr - old(root.Repr))
    ensures root.children == old(root.children)
    ensures root.w == old(root.w) && root.n == old(root.n) && root.mov == old(root.mov) && root.pos == old(root.pos)
    ensures forall i :: 0 <= i < |root.children| ==>
      && root.children[i].mov == old(root.children[i].mov)
      && root.children[i].pos == old(root.children[i].pos)
      && root.children[i].n >= old(root.children[i].n) + IterationsBetweenTimeChecks * rounds(i)
  {
    var children := root.children;
    for i := 0 to |children|
      invariant root.Valid() && fresh(root.Repr - old(root.Repr)) && root.children == children
      invariant root.w == old(root.w) && root.n == old(root.n) && root.mov == old(root.mov) && root.pos == old(root.pos)
      invariant forall j :: 0 <= j < |children| ==>
        && children[j].mov == old(children[j].mov)
        && children[j].pos == old(children[j].pos)
        && children[j].n >= old(children[j].n) + (if j < i then IterationsBetweenTimeChecks * rounds(j) else 0)
    {
      label Before:
      ConcurrentIterate(e, ucb, random(i), children[i], agentColor, rounds(i));
      root.Repr := root.Repr + children[i].Repr;
      forall j | 0 <= j < |children| && j != i
        ensures children[j].Repr == old@Before(children[j].Repr)
        ensures unchanged@Before(old@Before(children[j].Repr))
        ensures children[j].Valid()
        ensures children[j].Repr !! children[i].Repr
      {
      }
    }
  }

  /** The tree `GetMove` grows for `p`: valid, with one child per legal
      move, reached by that move from the cumulative positions of
      `makeParentNode`, and visited at least once per iteration its
      goroutine's clock let through. */
  ghost predicate Grown(e: Engine, rounds: nat -> nat, p: Position, root: Node)
    reads root, root.Repr
  {
    && root.Valid()
    && |root.children| == |e.legalMoves(p)|
    && forall i :: 0 <= i < |root.children| ==>
         && root.children[i].mov == e.legalMoves(p)[i]
         && root.children[i].pos == Played(e, p, e.legalMoves(p)[..i])
         && root.children[i].n >= IterationsBetweenTimeChecks * rounds(i)
  }

  /** The search tree `GetMove` builds for `p`: the root's children, one per
      legal move, each searched by its own goroutine for the side to move. */
  method GrowTree(e: Engine, ucb: Ucb, random: nat -> DrawStream, rounds: nat -> nat, p: Position)
    returns (root: Node)
    requires StuckIsTerminal(e)
    ensures fresh(root) && Grown(e, rounds, p, root)
    ensures root.w == 0.0 && root.n == 0 && root.mov == NullMove && root.pos == Played(e, p, e.legalMoves(p))
  {
    root := MakeParentNode(e, p);
    SearchChildren(e, ucb, random, rounds, root, p.turn);
  }

  /** In a grown tree where some child's clock let a batch through, the
      child `bestMove` picks was visited and has the highest rate among the
      visited children. */
  lemma GrownPicksVisited(e: Engine, rounds: nat -> nat, p: Position, root: Node, k: int)
    requires Grown(e, rounds, p, root) && IsFirstMax(Rates(StatsOf(root.children)), -MaxScore, k)
    requires exists i :: 0 <= i < |root.children| && rounds(i) > 0
    ensures VisitedBest(StatsOf(root.children), k)
  {
    var stats := StatsOf(root.children);
    ValidWinsWithinVisits(root);
    var i :| 0 <= i < |root.children| && rounds(i) > 0;
    assert stats[i].n > 0;
    BestIsVisited(stats, k);
  }

  /** `GetMove`: the move of the best child of the grown tree.  The position
      must have a legal move, since `bestMove` reads the first child.
      `root` is the grown tree and `k` the index of the child chosen; once
      some child's clock let a batch through, the chosen child was visited
      and has the highest win rate among the visited children. */
  method GetMove(e: Engine, ucb: Ucb, random: nat -> DrawStream, rounds: nat -> nat, p: Position)
    returns (move: Move, ghost root: Node, ghost k: int)
    requires StuckIsTerminal(e) && e.legalMoves(p) != []
    ensures fresh(root) && Grown(e, rounds, p, root)
    ensures -1 <= k < |root.children| && IsFirstMax(Rates(StatsOf(root.children)), -MaxScore, k)
    ensures move == e.legalMoves(p)[if k == -1 then 0 else k]
    ensures (exists i :: 0 <= i < |root.children| && rounds(i) > 0) ==> VisitedBest(StatsOf(root.children), k)
  {
    var tree := GrowTree(e, ucb, random, rounds, p);
    label Chosen:
    move, k := BestMove(tree);
    assert unchanged@Chosen(tree, tree.Repr);
    assert Grown(e, rounds, p, tree) && IsFirstMax(Rates(StatsOf(tree.children)), -MaxScore, k);
    root := tree;
    if exists i :: 0 <= i < |root.children| && rounds(i) > 0 {
      GrownPicksVisited(e, rounds, p, root, k);
    }
  }
}
