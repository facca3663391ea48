/** The motion session of `autoload/clever_f.vim`: the script-local state
    (`s:previous_map`, `s:previous_pos`, `s:first_move`,
    `s:previous_char_num`, `s:last_mode`, `s:moved_forward`,
    `s:timestamp`) and the functions that read and update it. Every host
    observation (mode, cursor, clock, count, the typed key, `search()`) is a
    field of `Host`; every function returns the new state instead of
    assigning script variables. */
module Session {
  import opened Wrappers
  import opened Keys
  import opened Settings
  import opened Position
  import opened Search
  import opened Helper

  /** The `mode(1)` keys the session maps are indexed by. */
  datatype Mode =
    | Normal           // 'n'
    | OperatorPending  // 'no'
    | Visual           // 'v'
    | VisualLine       // 'V'
    | VisualBlock      // "\<C-v>"
    | Select           // 's'
    | NormalEx         // 'ce'

  /** `mode ==? 'v' || mode ==# "\<C-v>"`: the modes served by
      `s:move_cmd_for_visualmode`. */
  predicate IsVisualMode(mode: Mode) {
    mode == Visual || mode == VisualLine || mode == VisualBlock
  }

  /** The modes listed where a fresh motion marks the target character. */
  predicate MarksCharIn(mode: Mode) {
    mode != OperatorPending
  }

  /** The `CleverFChar` match: the characters of one line that match the
      pattern for `m` and `key`. */
  datatype Mark = Mark(line: int, m: MapChar, key: Key)

  datatype State = State(
    lastMode: Option<Mode>,               // s:last_mode ('' is None)
    previousMap: map<Mode, MapChar>,      // s:previous_map
    previousPos: map<Mode, Pos>,          // s:previous_pos
    firstMove: map<Mode, bool>,           // s:first_move
    previousCharNum: map<Mode, Key>,      // s:previous_char_num
    timestamp: int,                       // s:timestamp, in milliseconds
    movedForward: Option<bool>,           // s:moved_forward (None when unlet)
    mark: Option<Mark>,                   // the CleverFChar highlight, if any
    finalizerArmed: bool                  // the plugin-clever-f-finalizer autocommands are set
  )

  /** The state right after the script is sourced. */
  const Init := State(None, map[], map[], map[], map[], 0, None, None, false)

  /** What the host reports or supplies during one call. */
  datatype Host = Host(
    mode: Mode,          // mode(1)
    cursor: Pos,         // getpos('.')[1 : 2]
    now: int,            // reltime(), in milliseconds
    count: Count,        // v:count1
    input: Key,          // the next s:getchar()
    search: Searcher     // search()
  )

  /** The key sequence an `<expr>` mapping hands back to Vim. */
  datatype Command =
    | NoMotion                                       // ''
    | CallFind(inclusive: bool, m: MapChar, key: Key) // [v]:<C-u>call clever_f#find(m, key)<CR>
    | JumpToMark(target: Pos)                        // `` after setpos("''", target)

  datatype Error = InvalidMapping | PreviousInputNotFound

  datatype Reply = Emit(cmd: Command) | Failed(err: Error)

  datatype Step = Step(st: State, reply: Reply)

  /** Facts every reachable state keeps: the mode remembered in
      `s:last_mode` has a stored character (and none is stored before any
      was typed), and `s:first_move` has an entry for every mode that has a
      motion or a recorded position. */
  predicate WellFormed(st: State) {
    && (st.lastMode.None? ==> st.previousCharNum == map[])
    && (st.lastMode.Some? ==> st.lastMode.value in st.previousCharNum)
    && st.previousMap.Keys <= st.firstMove.Keys
    && st.previousPos.Keys <= st.firstMove.Keys
  }

  lemma InitWellFormed()
    ensures WellFormed(Init)
    ensures Init.previousMap == map[] && Init.previousPos == map[] && Init.lastMode.None?
  {
  }

  /** `clever_f#reset()`. */
  function Reset(st: State): (r: State)
    ensures r.previousMap == map[] && r.previousPos == map[] && r.firstMove == map[]
    ensures r.timestamp == 0 && r.mark.None?
    ensures r.lastMode == st.lastMode && r.previousCharNum == st.previousCharNum
    ensures r.movedForward == st.movedForward && r.finalizerArmed == st.finalizerArmed
    ensures WellFormed(st) ==> WellFormed(r)
  {
    st.(previousMap := map[], previousPos := map[], firstMove := map[], timestamp := 0, mark := None)
  }

  /** `clever_f#_reset_all()`: a reset that also forgets the last mode, the
      stored characters and `s:moved_forward`, and removes the finalizer
      autocommands. */
  function ResetAll(st: State): (r: State)
    ensures r == Init
  {
    Reset(st).(lastMode := None, previousCharNum := map[], movedForward := None, finalizerArmed := false)
  }

  /** `s:finalize()`: remove the finalizer autocommands and the highlight,
      and set `s:moved_forward` to 0. Run on `InsertEnter`, and by
      `MaybeFinalize`. */
  function Finalize(st: State): (r: State)
    ensures !r.finalizerArmed && r.mark.None? && r.movedForward == Some(false)
    ensures r.previousMap == st.previousMap && r.previousPos == st.previousPos
    ensures r.firstMove == st.firstMove && r.previousCharNum == st.previousCharNum
    ensures r.lastMode == st.lastMode && r.timestamp == st.timestamp
    ensures WellFormed(st) ==> WellFormed(r)
  {
    st.(finalizerArmed := false, mark := None, movedForward := Some(false))
  }

  /** The `CursorMoved` autocommand, `s:maybe_finalize()`: finalize when the
      cursor is not where the last mode's motion left it. It only runs while
      the finalizer autocommands are set. */
  function MaybeFinalize(st: State, cursor: Pos): (r: State)
    ensures !st.finalizerArmed ==> r == st
    ensures (st.finalizerArmed && st.lastMode.Some? && st.lastMode.value in st.previousPos
             && cursor == st.previousPos[st.lastMode.value]) ==> r == st
    ensures (st.finalizerArmed && ValidPos(cursor)
             && !(st.lastMode.Some? && st.lastMode.value in st.previousPos
                  && cursor == st.previousPos[st.lastMode.value])) ==> r == Finalize(st)
    ensures WellFormed(st) ==> WellFormed(r)
  {
    if !st.finalizerArmed then st
    else
      var pp := if st.lastMode.Some? then Get(st.previousPos, st.lastMode.value, Zero) else Zero;
      if cursor != pp then Finalize(st) else st
  }

  /** The `WinEnter`/`WinLeave`/`CmdWinLeave` autocommand set when
      `g:clever_f_clean_labels_eagerly` is on: drop the highlight. */
  function WindowChange(st: State, cfg: Config): (r: State)
    ensures cfg.cleanLabelsEagerly && cfg.markChar ==> r == st.(mark := None)
    ensures !(cfg.cleanLabelsEagerly && cfg.markChar) ==> r == st
    ensures WellFormed(st) ==> WellFormed(r)
  {
    if cfg.cleanLabelsEagerly && cfg.markChar then st.(mark := None) else st
  }

  /** `g:clever_f_timeout_ms > 0 && s:is_timedout()`. */
  predicate TimedOut(st: State, cfg: Config, now: int) {
    cfg.timeoutMs > 0 && now - st.timestamp > cfg.timeoutMs
  }

  datatype TimeCheck = TimeCheck(timedOut: bool, st: State)

  /** `s:is_timedout()`: how long since the stored stamp, and restamp. */
  function IsTimedOut(st: State, cfg: Config, now: int): (r: TimeCheck)
    ensures r.st == st.(timestamp := now)
    ensures r.timedOut <==> now - st.timestamp > cfg.timeoutMs
  {
    var elapsed := now - st.timestamp;
    TimeCheck(elapsed > cfg.timeoutMs, st.(timestamp := now))
  }

  /** The repeat path consults `s:is_timedout()` only when a timeout is
      configured, so a session times out exactly when that check says so;
      a timed-out session stays timed out as the clock advances, and the
      restamp the check leaves behind is never itself timed out. */
  lemma TimeoutWindow(st: State, cfg: Config, now: int, later: int)
    requires now <= later
    ensures TimedOut(st, cfg, now) <==> cfg.timeoutMs > 0 && IsTimedOut(st, cfg, now).timedOut
    ensures TimedOut(st, cfg, now) ==> TimedOut(st, cfg, later)
    ensures cfg.timeoutMs >= 0 ==> !TimedOut(IsTimedOut(st, cfg, now).st, cfg, now)
  {
  }

  /** `s:first_move` as `s:next_pos` reads it: true when absent. */
  function IsFirstMove(st: State, mode: Mode): bool {
    Get(st.firstMove, mode, true)
  }

  /** The result of `clever_f#find`: the new state, where the cursor is
      left, and whether the character highlight was redrawn. */
  datatype Found = Found(st: State, cursor: Pos, refreshed: bool)

  /** `clever_f#find(map, char_num)`, run in the host's mode. A read of an
      unset `s:moved_forward` or a missing `s:first_move` entry is an error
      in Vim that makes the `:if` skip its block; the model treats such a
      condition as false. */
  function Find(st: State, cfg: Config, h: Host, m: MapChar, key: Key): (r: Found)
    ensures var p := NextPos(cfg, h.search, IsFirstMove(st, h.mode), m, key, h.count, h.cursor);
      && (p.pos == Zero ==> r.st == st && r.cursor == p.cursor && !r.refreshed)
      && (p.pos != Zero ==>
            && r.cursor == p.pos
            && r.st.previousPos == st.previousPos[h.mode := p.pos]
            && r.st.firstMove == st.firstMove[h.mode := false]
            && r.st.movedForward == Some(MovesForward(h.cursor, p.pos))
            && (r.refreshed <==>
                  cfg.markChar
                  && (p.pos.line != h.cursor.line
                      || (IsTill(m) && !IsFirstMove(st, h.mode) && st.movedForward.Some?
                          && st.movedForward.value != MovesForward(h.cursor, p.pos)))))
    ensures r.refreshed ==> cfg.markChar && r.st.mark == Some(Mark(r.cursor.line, m, key))
    ensures !r.refreshed ==> r.st.mark == st.mark
    ensures r.st.finalizerArmed == st.finalizerArmed
    ensures r.st.previousMap == st.previousMap && r.st.previousCharNum == st.previousCharNum
    ensures r.st.lastMode == st.lastMode && r.st.timestamp == st.timestamp
    ensures WellFormed(st) ==> WellFormed(r.st)
  {
    var before := h.cursor;
    var p := NextPos(cfg, h.search, IsFirstMove(st, h.mode), m, key, h.count, before);
    if p.pos == Zero then Found(st, p.cursor, false)
    else
      var forward := MovesForward(before, p.pos);
      var refresh := cfg.markChar
        && (p.pos.line != before.line
            || (IsTill(m) && h.mode in st.firstMove && !st.firstMove[h.mode]
                && st.movedForward.Some? && Xor(st.movedForward.value, forward)));
      var st1 := if refresh then st.(mark := Some(Mark(p.pos.line, m, key))) else st;
      var st2 := st1.(movedForward := Some(forward),
                      previousPos := st.previousPos[h.mode := p.pos],
                      firstMove := st.firstMove[h.mode := false]);
      Found(st2, p.pos, refresh)
  }

  /** `s:move_cmd_for_visualmode(map, char_num)`: search, then set the `''`
      mark to the target and answer a jump to it. */
  function MoveCmdForVisual(st: State, cfg: Config, h: Host, m: MapChar, key: Key): (r: Step)
    ensures r.reply.Emit? && (r.reply.cmd.NoMotion? || r.reply.cmd.JumpToMark?)
    ensures r.reply.cmd.NoMotion? ==> r.st == st
    ensures r.reply.cmd.JumpToMark? ==>
              && r.reply.cmd.target != Zero
              && r.st == st.(previousPos := st.previousPos[h.mode := r.reply.cmd.target],
                             firstMove := st.firstMove[h.mode := false])
    ensures r.reply.cmd.NoMotion? <==> NextPos(cfg, h.search, IsFirstMove(st, h.mode), m, key, h.count, h.cursor).pos == Zero
    ensures r.reply.cmd.JumpToMark? ==>
              r.reply.cmd.target == NextPos(cfg, h.search, IsFirstMove(st, h.mode), m, key, h.count, h.cursor).pos
  {
    var p := NextPos(cfg, h.search, IsFirstMove(st, h.mode), m, key, h.count, h.cursor);
    if p.pos == Zero then Step(st, Emit(NoMotion))
    else
      Step(st.(previousPos := st.previousPos[h.mode := p.pos], firstMove := st.firstMove[h.mode := false]),
           Emit(JumpToMark(p.pos)))
  }

  /** The character `clever_f#repeat` searches for: the stored one, or the
      Number 0 when the mode has none. */
  function StoredKey(st: State, mode: Mode): Key {
    Get(st.previousCharNum, mode, Char(0 as char))
  }

  /** A special key such as `<Left>` (its `char2nr` is 128) is never searched. */
  predicate IsIgnoredSpecial(k: Key) {
    k.Special? && Char2Nr(k.bytes) == 128
  }

  /** `clever_f#repeat(back)`. */
  function Repeat(st: State, cfg: Config, h: Host, back: bool): (r: Step)
    ensures r.reply.Emit?
    ensures h.mode !in st.previousMap || IsIgnoredSpecial(StoredKey(st, h.mode)) ==> r == Step(st, Emit(NoMotion))
    ensures r.st.previousMap == st.previousMap && r.st.previousCharNum == st.previousCharNum
    ensures r.st.lastMode == st.lastMode && r.st.timestamp == st.timestamp
    ensures r.st.mark == st.mark && r.st.movedForward == st.movedForward
    ensures h.mode in st.previousMap && !IsIgnoredSpecial(StoredKey(st, h.mode)) && !IsVisualMode(h.mode) ==>
              var pmap := st.previousMap[h.mode];
              var cm := if back then SwapCase(pmap) else pmap;
              r == Step(st, Emit(CallFind(h.mode == OperatorPending && !IsBackward(cm), cm, StoredKey(st, h.mode))))
    ensures h.mode in st.previousMap && !IsIgnoredSpecial(StoredKey(st, h.mode)) && IsVisualMode(h.mode) ==>
              var pmap := st.previousMap[h.mode];
              var cm := if back then SwapCase(pmap) else pmap;
              r == MoveCmdForVisual(st, cfg, h, cm, StoredKey(st, h.mode))
    ensures r.reply.cmd.CallFind? ==> !IsVisualMode(h.mode)
    ensures !r.reply.cmd.JumpToMark? ==> r.st == st
    ensures r.reply.cmd.JumpToMark? ==>
              IsVisualMode(h.mode) && h.mode in st.previousMap
              && r.st.previousPos == st.previousPos[h.mode := r.reply.cmd.target]
              && r.st.firstMove == st.firstMove[h.mode := false]
    ensures WellFormed(st) ==> WellFormed(r.st)
  {
    if h.mode !in st.previousMap then Step(st, Emit(NoMotion))
    else
      var key := StoredKey(st, h.mode);
      if IsIgnoredSpecial(key) then Step(st, Emit(NoMotion))
      else
        var pmap := if back then SwapCase(st.previousMap[h.mode]) else st.previousMap[h.mode];
        if IsVisualMode(h.mode) then MoveCmdForVisual(st, cfg, h, pmap, key)
        else
          var inclusive := h.mode == OperatorPending && !IsBackward(pmap);
          Step(st, Emit(CallFind(inclusive, pmap, key)))
  }

  /** `cn` is one of `g:clever_f_repeat_last_char_inputs`: `index()` compares
      without conversion, so only a Number can match the `char2nr` list. */
  predicate IsRepeatInput(cfg: Config, k: Key) {
    k.Char? && exists i :: 0 <= i < |cfg.repeatLastCharInputs| && Char2Nr(cfg.repeatLastCharInputs[i]) == k.c as int
  }

  /** `has_key(s:previous_char_num, s:last_mode)`. */
  predicate HasLastChar(st: State) {
    st.lastMode.Some? && st.lastMode.value in st.previousCharNum
  }

  /** The character a fresh motion stores: the typed one, or for a
      repeat-last-input key the one stored for the last mode. */
  function Recalled(st: State, cfg: Config, k: Key): Key
    requires IsRepeatInput(cfg, k) ==> HasLastChar(st)
  {
    if IsRepeatInput(cfg, k) then st.previousCharNum[st.lastMode.value] else k
  }

  /** The writes of a fresh `clever_f#find_with` once the character is
      known: the map and the character for the mode, `s:first_move`,
      `s:last_mode`, the timestamp, and the highlight of the target
      character on the cursor line. */
  function Remember(st: State, cfg: Config, h: Host, m: MapChar): (r: State)
    requires IsRepeatInput(cfg, h.input) ==> HasLastChar(st)
    ensures r.lastMode == Some(h.mode)
    ensures r.previousCharNum == st.previousCharNum[h.mode := Recalled(st, cfg, h.input)]
    ensures r.previousMap == st.previousMap[h.mode := m]
    ensures r.firstMove == st.firstMove[h.mode := true]
    ensures r.previousPos == st.previousPos && r.movedForward == st.movedForward
    ensures cfg.timeoutMs > 0 ==> r.timestamp == h.now
    ensures cfg.timeoutMs <= 0 ==> r.timestamp == st.timestamp
    ensures cfg.markChar && MarksCharIn(h.mode) ==>
              r.mark == Some(Mark(h.cursor.line, m, Recalled(st, cfg, h.input))) && r.finalizerArmed
    ensures cfg.markChar && !MarksCharIn(h.mode) ==> r.mark.None? && r.finalizerArmed == st.finalizerArmed
    ensures !cfg.markChar ==> r.mark == st.mark && r.finalizerArmed == st.finalizerArmed
    ensures WellFormed(st) ==> WellFormed(r)
  {
    var mode := h.mode;
    var stored := Recalled(st, cfg, h.input);
    var st1 := st.(previousMap := st.previousMap[mode := m], firstMove := st.firstMove[mode := true]);
    var st2 := st1.(previousCharNum := st1.previousCharNum[mode := stored], lastMode := Some(mode));
    var st3 := if cfg.timeoutMs > 0 then st2.(timestamp := h.now) else st2;
    if !cfg.markChar then st3
    else if MarksCharIn(mode) then st3.(mark := Some(Mark(h.cursor.line, m, stored)), finalizerArmed := true)
    else st3.(mark := None)
  }

  /** The part of `clever_f#find_with` that runs when the cursor is not where
      the mode's last motion left it: read a character, store it, and
      repeat forward. `s:previous_map` and `s:first_move` are written before
      the character is checked, so the "Previous input not found." return
      keeps those two writes. */
  function Fresh(st: State, cfg: Config, h: Host, m: MapChar): (r: Step)
    ensures h.mode in r.st.previousMap && r.st.previousMap[h.mode] == m
    ensures r.reply.Failed? <==> IsRepeatInput(cfg, h.input) && !HasLastChar(st)
    ensures r.reply.Failed? ==>
              r == Step(st.(previousMap := st.previousMap[h.mode := m], firstMove := st.firstMove[h.mode := true]),
                        Failed(PreviousInputNotFound))
    ensures r.reply.Emit? ==>
              && r.st.lastMode == Some(h.mode)
              && r.st.previousCharNum == st.previousCharNum[h.mode := Recalled(st, cfg, h.input)]
              && r.st.previousMap == st.previousMap[h.mode := m]
              && (cfg.timeoutMs > 0 ==> r.st.timestamp == h.now)
    ensures r.reply.Emit? && !r.reply.cmd.JumpToMark? ==> h.mode in r.st.firstMove && r.st.firstMove[h.mode]
    ensures r.reply.Emit? && IsIgnoredSpecial(Recalled(st, cfg, h.input)) ==> r.reply == Emit(NoMotion)
    ensures r.reply.Emit? && !IsIgnoredSpecial(Recalled(st, cfg, h.input)) && !IsVisualMode(h.mode) ==>
              r.reply == Emit(CallFind(h.mode == OperatorPending && !IsBackward(m), m, Recalled(st, cfg, h.input)))
    ensures r.reply.Emit? && !IsIgnoredSpecial(Recalled(st, cfg, h.input)) && IsVisualMode(h.mode) ==>
              var p := NextPos(cfg, h.search, true, m, Recalled(st, cfg, h.input), h.count, h.cursor);
              && (p.pos == Zero ==> r.reply == Emit(NoMotion))
              && (p.pos != Zero ==> r.reply == Emit(JumpToMark(p.pos)))
    ensures WellFormed(st) ==> WellFormed(r.st)
  {
    if IsRepeatInput(cfg, h.input) && !HasLastChar(st) then
      Step(st.(previousMap := st.previousMap[h.mode := m], firstMove := st.firstMove[h.mode := true]),
           Failed(PreviousInputNotFound))
    else
      Repeat(Remember(st, cfg, h, m), cfg, h, false)
  }

  /** `back` on the repeat path of `clever_f#find_with`: the key's case,
      flipped under `g:clever_f_fix_key_direction` when the stored map is
      upper-case. When the mode has no stored map the `let` fails in Vim and
      `back` keeps the key's case. */
  function RepeatBack(st: State, cfg: Config, mode: Mode, m: MapChar): bool {
    var back := IsBackward(m);
    if cfg.fixKeyDirection && mode in st.previousMap && IsBackward(st.previousMap[mode]) then !back else back
  }

  /** `clever_f#find_with(map)`. The host's cursor is 1-based, so it never
      equals the `[0, 0]` default; after a timeout reset `s:previous_pos` is
      empty and the retry takes the fresh path, which is why the recursion
      ends. */
  function FindWith(st: State, cfg: Config, h: Host, name: string): (r: Step)
    requires ValidPos(h.cursor)
    decreases |st.previousPos|
    ensures !IsMapName(name) ==> r == Step(st, Failed(InvalidMapping))
    ensures r.reply.Failed? && IsMapName(name) ==>
              r.reply.err == PreviousInputNotFound && IsRepeatInput(cfg, h.input)
    ensures IsMapName(name) && h.cursor != Get(st.previousPos, h.mode, Zero) ==> r == Fresh(st, cfg, h, name[0])
    ensures IsMapName(name) && h.cursor != Get(st.previousPos, h.mode, Zero) ==>
              && h.mode in r.st.previousMap && r.st.previousMap[h.mode] == name[0]
              && (r.reply.Failed? <==> IsRepeatInput(cfg, h.input) && !HasLastChar(st))
              && (r.reply.Emit? ==>
                    r.st.lastMode == Some(h.mode)
                    && r.st.previousCharNum == st.previousCharNum[h.mode := Recalled(st, cfg, h.input)])
    ensures IsMapName(name) && h.cursor == Get(st.previousPos, h.mode, Zero) && !TimedOut(st, cfg, h.now) ==>
              && r.reply.Emit?
              && r.st.previousMap == st.previousMap
              && r.st.previousCharNum == st.previousCharNum
              && r.st.lastMode == st.lastMode
    ensures WellFormed(st) ==> WellFormed(r.st)
  {
    if !IsMapName(name) then Step(st, Failed(InvalidMapping))
    else
      var m: MapChar := name[0];
      if h.cursor != Get(st.previousPos, h.mode, Zero) then Fresh(st, cfg, h, m)
      else
        assert h.mode in st.previousPos;
        var back := RepeatBack(st, cfg, h.mode, m);
        if cfg.timeoutMs > 0 then
          var t := IsTimedOut(st, cfg, h.now);
          if t.timedOut then
            assert |st.previousPos| > 0 by { assert h.mode in st.previousPos.Keys; }
            FindWith(Reset(t.st), cfg, h, name)
          else Repeat(t.st, cfg, h, back)
        else Repeat(st, cfg, h, back)
  }

  /** One press of a motion key as the host runs it: `clever_f#find_with`,
      then the command it hands back (`clever_f#find` in the same mode, or
      the jump to the `''` mark). */
  datatype Outcome = Outcome(st: State, cursor: Pos, reply: Reply)

  function Press(st: State, cfg: Config, h: Host, name: string): (r: Outcome)
    requires ValidPos(h.cursor)
    ensures var s := FindWith(st, cfg, h, name);
      && r.reply == s.reply
      && (s.reply.Emit? && s.reply.cmd.CallFind? ==>
            var f := Find(s.st, cfg, h, s.reply.cmd.m, s.reply.cmd.key);
            r.st == f.st && r.cursor == f.cursor)
      && (s.reply.Emit? && s.reply.cmd.JumpToMark? ==> r.st == s.st && r.cursor == s.reply.cmd.target)
      && (s.reply.Failed? || s.reply.cmd.NoMotion? ==> r.st == s.st && r.cursor == h.cursor)
    ensures WellFormed(st) ==> WellFormed(r.st)
  {
    var s := FindWith(st, cfg, h, name);
    match s.reply
    case Emit(CallFind(_, m, key)) =>
      var f := Find(s.st, cfg, h, m, key);
      Outcome(f.st, f.cursor, s.reply)
    case Emit(JumpToMark(p)) => Outcome(s.st, p, s.reply)
    case _ => Outcome(s.st, h.cursor, s.reply)
  }
}
