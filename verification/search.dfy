/** `s:next_pos`: repeat the host's `search()` `count` times with the
    generated pattern. The host search is an oracle: given the pattern, the
    flags, the stop line (0 for none) and the cursor it starts from, it
    answers the position of the match it moves to, or None. */
module Search {
  import opened Wrappers
  import opened Keys
  import opened Settings
  import opened Position
  import opened Pattern

  type Searcher = (string, string, int, Pos) -> Option<Pos>

  /** `v:count1`: a repeat count is at least 1. */
  type Count = n: int | n >= 1 witness 1

  /** One call of the host `search()`. */
  datatype Query = Query(pattern: string, flags: string, stopLine: int, from: Pos)

  function Ask(search: Searcher, q: Query): Option<Pos> {
    search(q.pattern, q.flags, q.stopLine, q.from)
  }

  /** `s:search`: with `g:clever_f_across_no_line` the search may not leave
      the cursor's line. */
  function MakeQuery(cfg: Config, pat: string, flags: string, cursor: Pos): (q: Query)
    ensures q.pattern == pat && q.flags == flags && q.from == cursor
    ensures cfg.acrossNoLine ==> q.stopLine == cursor.line
    ensures !cfg.acrossNoLine ==> q.stopLine == 0
  {
    Query(pat, flags, if cfg.acrossNoLine then cursor.line else 0, cursor)
  }

  /** `search_flag`: forward without wrapping for `f`/`t`, backward for `F`/`T`. */
  function DirectionFlag(m: MapChar): (f: string)
    ensures f == "W" <==> !IsBackward(m)
    ensures f == "bW" <==> IsBackward(m)
  {
    if IsBackward(m) then "bW" else "W"
  }

  /** The two keys of a pair (`f`/`F`, `t`/`T`) search in opposite
      directions, and a lower-case key searches forward. */
  lemma DirectionFlagSwap(m: MapChar)
    ensures DirectionFlag(SwapCase(m)) != DirectionFlag(m)
    ensures DirectionFlag(m) == "W" <==> m == 'f' || m == 't'
  {
  }

  /** The outcome of `s:next_pos`: the returned position (`[0, 0]` when a
      search failed), where the cursor was left, and the searches made. */
  datatype Probe = Probe(pos: Pos, cursor: Pos, queries: seq<Query>)

  /** Every query starts where the previous one moved the cursor. */
  predicate Chained(search: Searcher, start: Pos, qs: seq<Query>) {
    && (|qs| > 0 ==> qs[0].from == start)
    && forall i :: 0 <= i < |qs| - 1 ==> Ask(search, qs[i]) == Some(qs[i + 1].from)
  }

  /** Every query uses `pat`, and the stop line `s:search` derives. */
  predicate SamePattern(cfg: Config, pat: string, qs: seq<Query>) {
    forall i :: 0 <= i < |qs| ==>
      qs[i].pattern == pat && qs[i] == MakeQuery(cfg, pat, qs[i].flags, qs[i].from)
  }

  /** How a run of searches ended: a failed last search gives `[0, 0]` and
      leaves the cursor where that search started; otherwise the answer of
      the last search is both the result and the cursor. */
  predicate Settled(search: Searcher, start: Pos, p: Probe) {
    if |p.queries| == 0 then p.pos == start && p.cursor == start
    else
      var last := p.queries[|p.queries| - 1];
      match Ask(search, last)
      case None => p.pos == Zero && p.cursor == last.from
      case Some(n) => p.pos == n && p.cursor == n
  }

  /** The `while 0 < cnt` loop of `s:next_pos`. */
  function SearchLoop(cfg: Config, search: Searcher, pat: string, flag: string, cnt: int, cursor: Pos): (r: Probe)
    decreases cnt
    ensures |r.queries| <= (if cnt < 0 then 0 else cnt)
    ensures cnt >= 1 ==> |r.queries| >= 1
    ensures forall i :: 0 <= i < |r.queries| ==> r.queries[i].flags == flag
    ensures SamePattern(cfg, pat, r.queries)
    ensures Chained(search, cursor, r.queries)
    ensures Settled(search, cursor, r)
    ensures r.pos != Zero && |r.queries| > 0 ==> |r.queries| == cnt
  {
    if cnt <= 0 then Probe(cursor, cursor, [])
    else
      var q := MakeQuery(cfg, pat, flag, cursor);
      match Ask(search, q)
      case None => Probe(Zero, cursor, [q])
      case Some(n) =>
        var rest := SearchLoop(cfg, search, pat, flag, cnt - 1, n);
        Probe(rest.pos, rest.cursor, [q] + rest.queries)
  }

  /** A successful first search followed by a run of searches from where it
      landed is itself a chained, settled run. */
  lemma PrependQuery(cfg: Config, search: Searcher, pat: string, q: Query, n: Pos, rest: Probe)
    requires Ask(search, q) == Some(n)
    requires q == MakeQuery(cfg, pat, q.flags, q.from)
    requires SamePattern(cfg, pat, rest.queries)
    requires Chained(search, n, rest.queries)
    requires Settled(search, n, rest)
    ensures SamePattern(cfg, pat, [q] + rest.queries)
    ensures Chained(search, q.from, [q] + rest.queries)
    ensures Settled(search, q.from, Probe(rest.pos, rest.cursor, [q] + rest.queries))
  {
    var qs := [q] + rest.queries;
    assert forall i :: 1 <= i < |qs| ==> qs[i] == rest.queries[i - 1];
    if |rest.queries| > 0 {
      assert qs[|qs| - 1] == rest.queries[|rest.queries| - 1];
    }
  }

  /** The till first move of `s:next_pos`: one search that accepts a match
      at the cursor, which uses up one unit of the count, then the loop. */
  function TillFirstRun(cfg: Config, search: Searcher, pat: string, flag: string, count: Count, cursor: Pos): (r: Probe)
    ensures 1 <= |r.queries| <= count
    ensures r.queries[0].flags == flag + "c"
    ensures forall i :: 1 <= i < |r.queries| ==> r.queries[i].flags == flag
    ensures SamePattern(cfg, pat, r.queries)
    ensures Chained(search, cursor, r.queries)
    ensures Settled(search, cursor, r)
    ensures r.pos != Zero ==> |r.queries| == count
  {
    var q := MakeQuery(cfg, pat, flag + "c", cursor);
    match Ask(search, q)
    case None => Probe(Zero, cursor, [q])
    case Some(n) =>
      var rest := SearchLoop(cfg, search, pat, flag, count - 1, n);
      var qs := [q] + rest.queries;
      PrependQuery(cfg, search, pat, q, n, rest);
      assert forall i :: 1 <= i < |qs| ==> qs[i] == rest.queries[i - 1];
      Probe(rest.pos, rest.cursor, qs)
  }

  /** `s:next_pos(map, char, count)`; `first` is `get(s:first_move, mode, 1)`. */
  function NextPos(cfg: Config, search: Searcher, first: bool, m: MapChar, key: Key, count: Count, cursor: Pos): (r: Probe)
    ensures 1 <= |r.queries| <= count
    ensures forall i :: 0 <= i < |r.queries| ==>
              r.queries[i].flags == DirectionFlag(m) + (if i == 0 && IsTill(m) && first then "c" else "")
    ensures SamePattern(cfg, GeneratePattern(cfg, m, key), r.queries)
    ensures Chained(search, cursor, r.queries)
    ensures Settled(search, cursor, r)
    ensures r.pos != Zero ==> |r.queries| == count
  {
    var flag := DirectionFlag(m);
    var pat := GeneratePattern(cfg, m, key);
    assert flag + "" == flag;
    if IsTill(m) && first then TillFirstRun(cfg, search, pat, flag, count, cursor)
    else SearchLoop(cfg, search, pat, flag, count, cursor)
  }

  /** `search()` moves to a real (1-based) position whenever it finds a
      match. */
  ghost predicate AnswersValid(search: Searcher) {
    forall pat, flags, stop, from :: search(pat, flags, stop, from).Some? ==> ValidPos(search(pat, flags, stop, from).value)
  }

  /** With a real host search, `s:next_pos` answers `[0, 0]` exactly when
      one of its searches found nothing: that search is the last one made,
      and the cursor stays where it started. */
  lemma NextPosFailsOnlyOnNoMatch(cfg: Config, search: Searcher, first: bool, m: MapChar, key: Key, count: Count, cursor: Pos)
    requires AnswersValid(search)
    ensures var r := NextPos(cfg, search, first, m, key, count, cursor);
      var last := r.queries[|r.queries| - 1];
      && (r.pos == Zero <==> Ask(search, last).None?)
      && (r.pos == Zero ==> r.cursor == last.from)
      && (r.pos != Zero ==> forall i :: 0 <= i < |r.queries| ==> Ask(search, r.queries[i]).Some?)
  {
    var r := NextPos(cfg, search, first, m, key, count, cursor);
    var last := r.queries[|r.queries| - 1];
    if Ask(search, last).Some? {
      assert ValidPos(Ask(search, last).value);
      forall i | 0 <= i < |r.queries|
        ensures Ask(search, r.queries[i]).Some?
      {
        if i < |r.queries| - 1 {
          assert Ask(search, r.queries[i]) == Some(r.queries[i + 1].from);
        }
      }
    }
  }
}
