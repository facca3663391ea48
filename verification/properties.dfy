/** Properties that relate several calls of the motion session. */
module Properties {
  import opened Wrappers
  import opened Keys
  import opened Settings
  import opened Position
  import opened Search
  import opened Helper
  import opened Session

  /** The state the repeat path hands to `clever_f#repeat`: restamped when
      a timeout is configured (`s:is_timedout` stores the current time). */
  function Restamped(st: State, cfg: Config, now: int): State {
    if cfg.timeoutMs > 0 then st.(timestamp := now) else st
  }

  /** On a repeat, `back` is the pressed key's case, exclusive-or'ed with
      the stored map's case when `g:clever_f_fix_key_direction` is set, and
      the press runs `clever_f#repeat(back)`. */
  lemma RepeatDirection(st: State, cfg: Config, h: Host, name: string)
    requires ValidPos(h.cursor) && IsMapName(name)
    requires h.cursor == Get(st.previousPos, h.mode, Zero)
    requires !TimedOut(st, cfg, h.now)
    requires h.mode in st.previousMap
    ensures RepeatBack(st, cfg, h.mode, name[0])
         == Xor(IsBackward(name[0]), cfg.fixKeyDirection && IsBackward(st.previousMap[h.mode]))
    ensures FindWith(st, cfg, h, name) == Repeat(Restamped(st, cfg, h.now), cfg, h, RepeatBack(st, cfg, h.mode, name[0]))
  {
  }

  /** With `g:clever_f_fix_key_direction`, a repeated press searches in the
      direction of the key pressed (`f`/`t` forward, `F`/`T` backward),
      whatever direction the session started in, and keeps the session's
      find-or-till kind. */
  lemma FixedKeyDirection(st: State, cfg: Config, h: Host, name: string)
    requires ValidPos(h.cursor) && IsMapName(name)
    requires h.cursor == Get(st.previousPos, h.mode, Zero)
    requires !TimedOut(st, cfg, h.now)
    requires h.mode in st.previousMap && !IsIgnoredSpecial(StoredKey(st, h.mode)) && !IsVisualMode(h.mode)
    requires cfg.fixKeyDirection
    ensures var r := FindWith(st, cfg, h, name);
      && r.reply.Emit? && r.reply.cmd.CallFind?
      && (IsBackward(r.reply.cmd.m) <==> IsBackward(name[0]))
      && (IsTill(r.reply.cmd.m) <==> IsTill(st.previousMap[h.mode]))
      && r.reply.cmd.key == StoredKey(st, h.mode)
  {
    RepeatDirection(st, cfg, h, name);
  }

  /** Without `g:clever_f_fix_key_direction`, a lower-case key repeats the
      session's motion and an upper-case key runs it the other way. */
  lemma RelativeKeyDirection(st: State, cfg: Config, h: Host, name: string)
    requires ValidPos(h.cursor) && IsMapName(name)
    requires h.cursor == Get(st.previousPos, h.mode, Zero)
    requires !TimedOut(st, cfg, h.now)
    requires h.mode in st.previousMap && !IsIgnoredSpecial(StoredKey(st, h.mode)) && !IsVisualMode(h.mode)
    requires !cfg.fixKeyDirection
    ensures var r := FindWith(st, cfg, h, name);
      && r.reply.Emit? && r.reply.cmd.CallFind?
      && r.reply.cmd.m == (if IsBackward(name[0]) then SwapCase(st.previousMap[h.mode]) else st.previousMap[h.mode])
  {
    RepeatDirection(st, cfg, h, name);
  }

  /** Without the fixed direction, a key and its case-swapped partner
      pressed on the same session run case-swapped motions: opposite
      directions, same find-or-till kind. */
  lemma OppositeKeysRunOppositeMotions(st: State, cfg: Config, h: Host, name: string, name': string)
    requires ValidPos(h.cursor) && IsMapName(name) && IsMapName(name')
    requires name'[0] == SwapCase(name[0])
    requires h.cursor == Get(st.previousPos, h.mode, Zero)
    requires !TimedOut(st, cfg, h.now)
    requires h.mode in st.previousMap && !IsIgnoredSpecial(StoredKey(st, h.mode)) && !IsVisualMode(h.mode)
    requires !cfg.fixKeyDirection
    ensures FindWith(st, cfg, h, name').reply.cmd.m == SwapCase(FindWith(st, cfg, h, name).reply.cmd.m)
  {
    RelativeKeyDirection(st, cfg, h, name);
    RelativeKeyDirection(st, cfg, h, name');
    SwapCaseInvolution(st.previousMap[h.mode]);
  }

  /** After `clever_f#reset()` no real cursor matches a recorded position,
      so the next press in any mode is fresh. */
  lemma ResetMakesFresh(st: State, mode: Mode, cursor: Pos)
    requires ValidPos(cursor)
    ensures cursor != Get(Reset(st).previousPos, mode, Zero)
  {
  }

  /** A repeat that finds the session timed out behaves exactly like a
      fresh press after a reset: it reads a new character. */
  lemma TimeoutRestartsFresh(st: State, cfg: Config, h: Host, name: string)
    requires ValidPos(h.cursor) && IsMapName(name)
    requires h.cursor == Get(st.previousPos, h.mode, Zero)
    requires TimedOut(st, cfg, h.now)
    ensures FindWith(st, cfg, h, name) == Fresh(Reset(st), cfg, h, name[0])
    ensures var r := FindWith(st, cfg, h, name);
      && r.st.previousMap == map[h.mode := name[0]]
      && (!IsRepeatInput(cfg, h.input) ==> r.reply.Emit? && r.st.previousCharNum == st.previousCharNum[h.mode := h.input])
  {
    assert Reset(st.(timestamp := h.now)) == Reset(st);
    ResetMakesFresh(st, h.mode, h.cursor);
  }

  /** In a reachable state a fresh press fails with "Previous input not
      found." exactly when the typed key is a repeat-last-input key and no
      character has been typed yet (or since `clever_f#_reset_all()`). */
  lemma NoPreviousInputOnlyAtStart(st: State, cfg: Config, h: Host, m: MapChar)
    requires WellFormed(st)
    ensures Fresh(st, cfg, h, m).reply.Failed? <==> IsRepeatInput(cfg, h.input) && st.lastMode.None?
  {
  }

  /** As written, the "Previous input not found." return comes after
      `s:previous_map` and `s:first_move` were assigned: the mode is left
      with a motion but no character, and a following repeat in a
      non-visual mode asks to search for the character with code 0. */
  lemma NoPreviousInputLeavesHalfSession(st: State, cfg: Config, h: Host, name: string, back: bool)
    requires WellFormed(st) && st.lastMode.None?
    requires ValidPos(h.cursor) && IsMapName(name)
    requires h.cursor != Get(st.previousPos, h.mode, Zero)
    requires IsRepeatInput(cfg, h.input)
    requires !IsVisualMode(h.mode)
    ensures var r := FindWith(st, cfg, h, name);
      && r.reply == Failed(PreviousInputNotFound)
      && r.st.previousMap == st.previousMap[h.mode := name[0]]
      && r.st.firstMove == st.firstMove[h.mode := true]
      && h.mode !in r.st.previousCharNum
      && Repeat(r.st, cfg, h, back).reply.cmd
         == CallFind(h.mode == OperatorPending && !IsBackward(if back then SwapCase(name[0]) else name[0]),
                     if back then SwapCase(name[0]) else name[0], Char(0 as char))
  {
  }

  /** `s:first_move` lifecycle: a fresh press (outside the visual modes)
      leaves the mode on its first move, so a till's first search accepts a
      match at the cursor (`c` flag); once a find succeeds the mode is no
      longer on its first move and every later search excludes the cursor. */
  lemma FirstMoveLifecycle(st: State, cfg: Config, h: Host, name: string, m: MapChar, key: Key)
    requires ValidPos(h.cursor) && IsMapName(name)
    requires h.cursor != Get(st.previousPos, h.mode, Zero)
    requires !IsVisualMode(h.mode)
    ensures var r := FindWith(st, cfg, h, name);
      r.reply.Emit? ==> IsFirstMove(r.st, h.mode)
    ensures var f := Find(st, cfg, h, m, key);
      var p := NextPos(cfg, h.search, IsFirstMove(st, h.mode), m, key, h.count, h.cursor);
      p.pos != Zero ==>
        && !IsFirstMove(f.st, h.mode)
        && forall i :: 0 <= i < |NextPos(cfg, h.search, false, m, key, h.count, f.cursor).queries| ==>
             NextPos(cfg, h.search, false, m, key, h.count, f.cursor).queries[i].flags == DirectionFlag(m)
  {
  }

  /** A fresh till motion's first search carries the `c` flag. */
  lemma FreshTillAcceptsCursorMatch(st: State, cfg: Config, h: Host, m: MapChar, key: Key)
    requires IsTill(m) && IsFirstMove(st, h.mode)
    ensures var p := NextPos(cfg, h.search, IsFirstMove(st, h.mode), m, key, h.count, h.cursor);
      p.queries[0].flags == DirectionFlag(m) + "c" && p.queries[0].from == h.cursor
  {
  }

  /** A fresh press with an ordinary character stores the map and the
      character for the mode and searches for it as a first move. When the
      search succeeds the cursor lands on the match, the landing position is
      recorded for the mode and its first move is over; when it fails (or
      the key is an ignored special key) no position is recorded and the
      mode stays on its first move. */
  lemma FreshPressRecords(st: State, cfg: Config, h: Host, name: string)
    requires ValidPos(h.cursor) && IsMapName(name)
    requires h.cursor != Get(st.previousPos, h.mode, Zero)
    requires !IsRepeatInput(cfg, h.input)
    requires !IsVisualMode(h.mode)
    ensures var o := Press(st, cfg, h, name);
      var p := NextPos(cfg, h.search, true, name[0], h.input, h.count, h.cursor);
      && h.mode in o.st.previousMap && o.st.previousMap[h.mode] == name[0]
      && h.mode in o.st.previousCharNum && o.st.previousCharNum[h.mode] == h.input
      && o.st.lastMode == Some(h.mode)
      && (IsIgnoredSpecial(h.input) ==>
            o.cursor == h.cursor && o.st.previousPos == st.previousPos && IsFirstMove(o.st, h.mode))
      && (!IsIgnoredSpecial(h.input) && p.pos != Zero ==>
            && o.cursor == p.pos
            && o.st.previousPos == st.previousPos[h.mode := p.pos]
            && !IsFirstMove(o.st, h.mode))
      && (!IsIgnoredSpecial(h.input) && p.pos == Zero ==>
            o.st.previousPos == st.previousPos && IsFirstMove(o.st, h.mode))
  {
    var s := FindWith(st, cfg, h, name);
    assert s.st == Remember(st, cfg, h, name[0]);
    assert StoredKey(s.st, h.mode) == h.input;
    if !IsIgnoredSpecial(h.input) {
      assert s.reply == Emit(CallFind(h.mode == OperatorPending && !IsBackward(name[0]), name[0], h.input));
      assert IsFirstMove(s.st, h.mode);
    }
  }

  /** A fresh press in a visual mode: the forward repeat of the typed map
      is `s:move_cmd_for_visualmode`, which searches as a first move and
      answers a jump to the match, recorded for the mode with the first
      move ended; when the search fails (or the key is an ignored special
      key) it answers no motion and records nothing. */
  lemma FreshVisualPress(st: State, cfg: Config, h: Host, name: string)
    requires ValidPos(h.cursor) && IsMapName(name)
    requires h.cursor != Get(st.previousPos, h.mode, Zero)
    requires !IsRepeatInput(cfg, h.input)
    requires IsVisualMode(h.mode)
    ensures var o := Press(st, cfg, h, name);
      var p := NextPos(cfg, h.search, true, name[0], h.input, h.count, h.cursor);
      && h.mode in o.st.previousMap && o.st.previousMap[h.mode] == name[0]
      && h.mode in o.st.previousCharNum && o.st.previousCharNum[h.mode] == h.input
      && o.st.lastMode == Some(h.mode)
      && (IsIgnoredSpecial(h.input) ==>
            o.reply == Emit(NoMotion) && o.cursor == h.cursor && o.st.previousPos == st.previousPos)
      && (!IsIgnoredSpecial(h.input) && p.pos != Zero ==>
            && o.reply == Emit(JumpToMark(p.pos))
            && o.cursor == p.pos
            && o.st.previousPos == st.previousPos[h.mode := p.pos]
            && !IsFirstMove(o.st, h.mode))
      && (!IsIgnoredSpecial(h.input) && p.pos == Zero ==>
            && o.reply == Emit(NoMotion)
            && o.cursor == h.cursor
            && o.st.previousPos == st.previousPos
            && IsFirstMove(o.st, h.mode))
  {
    var r := Remember(st, cfg, h, name[0]);
    assert FindWith(st, cfg, h, name) == Repeat(r, cfg, h, false);
    assert StoredKey(r, h.mode) == h.input;
    assert IsFirstMove(r, h.mode);
    if !IsIgnoredSpecial(h.input) {
      assert Repeat(r, cfg, h, false) == MoveCmdForVisual(r, cfg, h, name[0], h.input);
    }
  }

  /** A fresh press with a repeat-last-input key (`<CR>` by default) after
      a character has been typed: it copies the last mode's character into
      this mode and searches forward for it with the typed map, as a first
      move; an ignored special key gives no motion. */
  lemma FreshRecallPress(st: State, cfg: Config, h: Host, name: string)
    requires ValidPos(h.cursor) && IsMapName(name)
    requires h.cursor != Get(st.previousPos, h.mode, Zero)
    requires IsRepeatInput(cfg, h.input) && HasLastChar(st)
    requires !IsVisualMode(h.mode)
    ensures var r := FindWith(st, cfg, h, name);
      var k := st.previousCharNum[st.lastMode.value];
      && r.st.previousCharNum == st.previousCharNum[h.mode := k]
      && r.st.lastMode == Some(h.mode)
      && IsFirstMove(r.st, h.mode)
      && (!IsIgnoredSpecial(k) ==> r.reply == Emit(CallFind(h.mode == OperatorPending && !IsBackward(name[0]), name[0], k)))
      && (IsIgnoredSpecial(k) ==> r.reply == Emit(NoMotion))
  {
  }

  /** The second press after a successful fresh one: pressing a motion key
      again in the same mode, where the first press left the cursor and
      before the timeout, reads no character and searches for the stored
      character again, forward for the same map or with the key's case
      deciding the direction as `RepeatDirection` describes. */
  lemma FreshThenRepeat(st: State, cfg: Config, h: Host, name: string, h2: Host, name2: string)
    requires ValidPos(h.cursor) && IsMapName(name) && IsMapName(name2)
    requires h.cursor != Get(st.previousPos, h.mode, Zero)
    requires !IsRepeatInput(cfg, h.input) && !IsIgnoredSpecial(h.input)
    requires !IsVisualMode(h.mode)
    requires h2.mode == h.mode
    requires cfg.timeoutMs > 0 ==> h2.now - h.now <= cfg.timeoutMs
    ensures var o := Press(st, cfg, h, name);
      var p := NextPos(cfg, h.search, true, name[0], h.input, h.count, h.cursor);
      var back := Xor(IsBackward(name2[0]), cfg.fixKeyDirection && IsBackward(name[0]));
      var cm := if back then SwapCase(name[0]) else name[0];
      ValidPos(p.pos) ==>
        && o.cursor == p.pos
        && FindWith(o.st, cfg, h2.(cursor := o.cursor), name2)
           == Step(Restamped(o.st, cfg, h2.now), Emit(CallFind(h.mode == OperatorPending && !IsBackward(cm), cm, h.input)))
  {
    FreshPressRecords(st, cfg, h, name);
    var o := Press(st, cfg, h, name);
    var p := NextPos(cfg, h.search, true, name[0], h.input, h.count, h.cursor);
    if ValidPos(p.pos) {
      var s := FindWith(st, cfg, h, name);
      assert s.st == Remember(st, cfg, h, name[0]);
      assert o.st.timestamp == s.st.timestamp;
      var h3 := h2.(cursor := o.cursor);
      assert !TimedOut(o.st, cfg, h3.now);
      assert h3.mode in o.st.previousPos && h3.cursor == o.st.previousPos[h3.mode];
      RepeatAtRest(o.st, cfg, h3, name2);
    }
  }

  /** The finalizer after a fresh press: the `CursorMoved` that follows the
      motion itself leaves the session alone, and any later move of the
      cursor elsewhere finalizes it (when the highlight is on and armed the
      finalizer). */
  lemma FinalizerAfterFreshPress(st: State, cfg: Config, h: Host, name: string, cursor: Pos)
    requires ValidPos(h.cursor) && IsMapName(name) && ValidPos(cursor)
    requires h.cursor != Get(st.previousPos, h.mode, Zero)
    requires !IsRepeatInput(cfg, h.input) && !IsIgnoredSpecial(h.input)
    requires !IsVisualMode(h.mode)
    requires NextPos(cfg, h.search, true, name[0], h.input, h.count, h.cursor).pos != Zero
    ensures var o := Press(st, cfg, h, name);
      && MaybeFinalize(o.st, o.cursor) == o.st
      && (cfg.markChar && MarksCharIn(h.mode) ==> o.st.finalizerArmed)
      && (o.st.finalizerArmed && cursor != o.cursor ==> MaybeFinalize(o.st, cursor) == Finalize(o.st))
  {
    FreshPressRecords(st, cfg, h, name);
    var s := FindWith(st, cfg, h, name);
    assert s.st == Remember(st, cfg, h, name[0]);
  }

  /** Repeat at rest: pressing a motion key where the mode's last motion
      left the cursor reads no character and runs the stored character
      again, with the stored map or its swap as `back` selects. */
  lemma RepeatAtRest(st: State, cfg: Config, h: Host, name: string)
    requires ValidPos(h.cursor) && IsMapName(name)
    requires h.mode in st.previousPos && h.cursor == st.previousPos[h.mode]
    requires h.mode in st.previousMap && h.mode in st.previousCharNum && !IsIgnoredSpecial(st.previousCharNum[h.mode])
    requires !TimedOut(st, cfg, h.now)
    requires !IsVisualMode(h.mode)
    ensures var back := RepeatBack(st, cfg, h.mode, name[0]);
      var cm := if back then SwapCase(st.previousMap[h.mode]) else st.previousMap[h.mode];
      FindWith(st, cfg, h, name)
        == Step(Restamped(st, cfg, h.now),
                Emit(CallFind(h.mode == OperatorPending && !IsBackward(cm), cm, st.previousCharNum[h.mode])))
  {
    RepeatDirection(st, cfg, h, name);
  }

  /** No-match idempotence on the repeat path: when the searches of a
      repeated press fail, the session is exactly as before (apart from the
      timestamp `s:is_timedout` refreshes). As written, the cursor stays
      where the last successful search of the run put it. */
  lemma FailedRepeatKeepsSession(st: State, cfg: Config, h: Host, name: string)
    requires ValidPos(h.cursor) && IsMapName(name)
    requires h.cursor == Get(st.previousPos, h.mode, Zero)
    requires !TimedOut(st, cfg, h.now)
    requires h.mode in st.previousMap && !IsIgnoredSpecial(StoredKey(st, h.mode)) && !IsVisualMode(h.mode)
    requires AnswersValid(h.search)
    requires var c := FindWith(st, cfg, h, name).reply.cmd;
      NextPos(cfg, h.search, IsFirstMove(st, h.mode), c.m, c.key, h.count, h.cursor).pos == Zero
    ensures var c := FindWith(st, cfg, h, name).reply.cmd;
      var p := NextPos(cfg, h.search, IsFirstMove(st, h.mode), c.m, c.key, h.count, h.cursor);
      var o := Press(st, cfg, h, name);
      && o.st == Restamped(st, cfg, h.now)
      && o.cursor == p.queries[|p.queries| - 1].from
  {
    RepeatDirection(st, cfg, h, name);
    var c := FindWith(st, cfg, h, name).reply.cmd;
    NextPosFailsOnlyOnNoMatch(cfg, h.search, IsFirstMove(st, h.mode), c.m, c.key, h.count, h.cursor);
  }

  /** Every sequence of presses keeps the session well formed, starting from any
      well-formed state (the state the script is sourced with is one). */
  lemma PressesStayWellFormed(st: State, cfg: Config, names: seq<string>, hs: seq<Host>)
    requires WellFormed(st)
    requires |hs| == |names|
    requires forall i :: 0 <= i < |hs| ==> ValidPos(hs[i].cursor)
    ensures WellFormed(PressAll(st, cfg, hs, names))
    decreases |names|
  {
    if |names| > 0 {
      PressesStayWellFormed(Press(st, cfg, hs[0], names[0]).st, cfg, names[1..], hs[1..]);
    }
  }

  /** A sequence of presses, each under its own host observation. */
  function PressAll(st: State, cfg: Config, hs: seq<Host>, names: seq<string>): State
    requires |hs| == |names|
    requires forall i :: 0 <= i < |hs| ==> ValidPos(hs[i].cursor)
    decreases |names|
  {
    if |names| == 0 then st
    else PressAll(Press(st, cfg, hs[0], names[0]).st, cfg, hs[1..], names[1..])
  }
}
