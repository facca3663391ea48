/** Cursor positions, the `[line, col]` pairs of `getpos('.')[1 : 2]`. */
module Position {

  datatype Pos = Pos(line: int, col: int)

  /** `[0, 0]`: the "no position" answer of `s:next_pos` and the default of
      `get(s:previous_pos, mode, [0, 0])`. */
  const Zero := Pos(0, 0)

  /** Vim's cursor positions are 1-based, so a real cursor is never `[0, 0]`. */
  predicate ValidPos(p: Pos) {
    p.line >= 1 && p.col >= 1
  }

  /** `s:moves_forward(p, n)`: did the cursor move from `p` to a later place? */
  function MovesForward(p: Pos, n: Pos): (r: bool)
    ensures r <==> p.line < n.line || (p.line == n.line && p.col < n.col)
  {
    if p.line != n.line then p.line < n.line
    else if p.col != n.col then p.col < n.col
    else false
  }

  /** `s:moves_forward` is a strict total order on positions: never true of
      a position and itself, true in exactly one direction between two
      different positions, and transitive. */
  lemma MovesForwardStrictTotalOrder(p: Pos, q: Pos, r: Pos)
    ensures !MovesForward(p, p)
    ensures p != q ==> (MovesForward(p, q) <==> !MovesForward(q, p))
    ensures p == q ==> !MovesForward(p, q) && !MovesForward(q, p)
    ensures MovesForward(p, q) && MovesForward(q, r) ==> MovesForward(p, r)
  {
  }
}
