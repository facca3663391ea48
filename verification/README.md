# clever-f motion engine in Dafny

This project models the motion engine of the clever-f Vim plugin, whose
autoload script (`autoload/clever_f.vim`) and helper (`autoload/clever_f/helper.vim`)
are embedded as string literals in `index.jsx`. The engine replaces Vim's
`f`, `F`, `t` and `T` motions. A press is *fresh* when the cursor is not
where the mode's last motion left it: the plugin then reads a character and
stores it. Otherwise the press is a *repeat*: it reuses the stored character,
and the key's case (or, with `g:clever_f_fix_key_direction`, the key itself)
picks the direction.

Modules:

- `Keys` (`keys.dfy`): the motion keys `f F t T` as a subset type of `char`,
  `s:swapcase`, and the typed key. `getchar()` returns a Number for an
  ordinary character and a String for a special key.
- `Settings` (`settings.dfy`): the `g:clever_f_*` options that change what is
  computed.
- `Pattern` (`pattern.dfy`): `s:generate_pattern` and `stridx`, with a parser
  for generated patterns as its partner (round trip).
- `Position` (`position.dfy`): cursor positions and `s:moves_forward`.
- `Search` (`search.dfy`): `s:search` and `s:next_pos` over an abstract host
  `search()`. Each call of the search is recorded as a `Query`.
- `Helper` (`helper.dfy`): `clever_f#helper#xor`.
- `Session` (`session.dfy`): the script-local state and the functions
  `clever_f#reset`, `clever_f#_reset_all`, `s:is_timedout`,
  `clever_f#find_with`, `clever_f#repeat`, `clever_f#find`,
  `s:move_cmd_for_visualmode`, `s:finalize`, `s:maybe_finalize` and the
  eager label clean-up on window changes. Each is a pure function from the old state
  and a `Host` record to the new state and a reply. The `Host` record holds
  the mode, cursor, clock, count, typed key and search oracle.
  `Press` runs `find_with` and then the command it returns.
- `Properties` (`properties.dfy`): lemmas that relate several calls.

Host services are parameters. `search()` is a total function from pattern,
flags, stop line and start position to an optional match position.
`reltime()` is an integer millisecond clock. `getchar()` is the `input`
field. `mode(1)` is a seven-value enumeration.

Two behaviours of the code are easy to misread, and the model follows the
code in both:

- Outside the visual modes, a failed search in the middle of a counted
  motion leaves the cursor at the last match found, because Vim's `search()` moves the cursor on each success
  (`index.jsx:391-402`). Only the returned position is `[0, 0]`.
- The "Previous input not found." return comes after `s:previous_map` and
  `s:first_move` have been assigned (`index.jsx:180-191`). The mode is left
  with a motion but no character.
  `Properties.NoPreviousInputLeavesHalfSession` states what follows.

Vim semantics the model relies on:

- `index()` compares without type conversion. So only a Number input can
  equal a `char2nr` of `g:clever_f_repeat_last_char_inputs`.
- A `let` whose expression fails leaves the variable unchanged.
- An `:if` whose condition fails skips its block.
- Cursor moves made while an `<expr>` mapping is evaluated are undone when
  the evaluation ends. In the visual modes the searches run inside the
  mapping (`index.jsx:254-255`, `316-319`), so the cursor stays put unless the
  returned keys jump to the `''` mark (`index.jsx:323`, `327`).

## Model

| member | source | states |
|---|---|---|
| Helper.Xor | index.jsx:451-453 | the helper is true exactly when its two arguments differ |
| Keys.SwapCase | index.jsx:407-409 | swapping case reverses direction (upper-case iff the argument was lower-case) and keeps find-or-till |
| Keys.SwapCaseInvolution | index.jsx:407-409 | swapping case twice gives the motion key back |
| Keys.SwapCasePairs | index.jsx:407-409 | `f` and `F` swap into each other, and so do `t` and `T` |
| Pattern.StrIdxFrom | index.jsx:366 | the search result is -1 iff the needle does not occur from the start index; otherwise it is the first index where it occurs |
| Pattern.StrIdx | index.jsx:366 | `stridx` is -1 iff the needle never occurs, otherwise the first occurrence |
| Pattern.StrIdxOfChar | index.jsx:366 | for a single character, `stridx` finds it iff the character is in the string |
| Pattern.GeneratePattern | index.jsx:356-381 | the pattern is `\c` or `\C` (`\c` iff ignore-case or smart-case with a lower-case letter), then `\V`, then the wrapped core |
| Pattern.ParsePattern | index.jsx:370-380 | any pattern the parser accepts has `\V` at position 2 |
| Pattern.CoreIsPlain | index.jsx:366-374 | the core for a typed character neither starts like a `t` wrapper nor ends like a `T` wrapper |
| Pattern.ParseGenerate | index.jsx:366-380 | round trip: parsing a generated pattern gives back the case flag, the till kind of the map (`t` prefix, `T` suffix, none for `f`/`F`) and the core |
| Pattern.CoreOfChar | index.jsx:357-368 | for a non-NUL character the core is the sign class iff the character is in `chars_match_any_signs`, otherwise the character itself; for code 0 `nr2char` gives the empty string, which `stridx` finds at 0, so the core is the sign class |
| Pattern.NulKeySearchesSigns | index.jsx:357-381 | the pattern for code 0 searches the sign class, case-insensitively exactly when ignore-case is set |
| Pattern.CaseFlagOfChar | index.jsx:380 | for a typed character, `\c` iff ignore-case, or smart-case with a lower-case ASCII letter |
| Position.MovesForward | index.jsx:267-277 | true iff the new position is on a later line, or on the same line at a later column |
| Position.MovesForwardStrictTotalOrder | index.jsx:267-277 | `s:moves_forward` is irreflexive, holds in exactly one direction between distinct positions, and is transitive |
| Search.DirectionFlagSwap | index.jsx:385 | the two keys of a pair search in opposite directions, and the forward flag belongs exactly to `f` and `t` |
| Search.SearchLoop | index.jsx:397-402 | at most `cnt` searches, each from where the previous one landed; a failure ends the run with `[0, 0]`, and success after exactly `cnt` searches gives the last match |
| Search.PrependQuery | index.jsx:389-402 | a successful first search followed by a run from its match is one chained, settled run |
| Search.TillFirstRun | index.jsx:389-402 | the first search carries `c` and every later one does not; at most `count` searches, chained and settled; success uses exactly `count` |
| Search.NextPos | index.jsx:383-405 | between 1 and `count` searches with the generated pattern; forward iff the map is lower-case; only the first search of a first-move till carries `c`; any failure gives `[0, 0]`; success needs exactly `count` searches |
| Search.NextPosFailsOnlyOnNoMatch | index.jsx:391-399 | with a search that only reports real positions, the result is `[0, 0]` iff the last search found nothing; success means every search matched |
| Session.InitWellFormed | index.jsx:89-96 | the initial state has empty maps, no last mode, and satisfies the session invariant |
| Session.Reset | index.jsx:99-113 | empties the map, position and first-move tables, zeroes the timestamp and clears the highlight; keeps the last mode, the stored characters and `moved_forward`; preserves the invariant |
| Session.ResetAll | index.jsx:116-124 | gives back the initial state: last mode, stored characters and `moved_forward` are cleared too |
| Session.TimeoutWindow | index.jsx:132-138 | a session is timed out exactly when a timeout is set and `s:is_timedout` says so; once timed out it stays so as time passes; the restamp it leaves is not timed out |
| Session.Find | index.jsx:279-301 | if the searches fail, state and highlight are unchanged; on success the mode's position becomes the match, `first_move` becomes false and `moved_forward` records the direction; the highlight is redrawn exactly when marking is on and the line changes, or a till reverses its recorded direction after the first move; never touches the map, character, last mode or timestamp |
| Session.MoveCmdForVisual | index.jsx:316-328 | no motion and no change iff the searches fail; otherwise a jump to the position `s:next_pos` found, which becomes the mode's position, with the first move ended and nothing else changed |
| Session.Repeat | index.jsx:236-264 | no motion without a stored map or for an ignored special key; back runs the case-swapped map, forward the stored one; outside visual modes answers `clever_f#find` (inclusive iff operator-pending with a forward map) without changing state; in visual modes it is `s:move_cmd_for_visualmode` with that map and the stored character; never changes the stored map or character |
| Session.Remember | index.jsx:180-210 | a fresh press stores the map and character for the mode, sets `first_move` and `last_mode`, stamps the clock when a timeout is set, and with marking on clears the highlight, then outside operator-pending marks the target character on the cursor line and arms the finalizer |
| Session.Finalize | index.jsx:303-307 | the finalizer is disarmed, the highlight removed and `moved_forward` set to 0; the session tables are untouched |
| Session.MaybeFinalize | index.jsx:309-314 | while armed, a cursor that is not the last mode's recorded position finalizes the session, and one that is changes nothing; unarmed, nothing happens |
| Session.WindowChange | index.jsx:79-84 | with eager clean-up and marking on, a window change removes the highlight; otherwise nothing changes |
| Session.Fresh | index.jsx:166-218 | the stored map is always written; the press fails iff a repeat-last-input key comes before any character, keeping only the map and first-move writes; otherwise the character (or the recalled one) is stored for the mode and the press is the forward repeat of the typed map: no motion for an ignored special key, `clever_f#find` outside the visual modes, and in them a jump to the first-move match or no motion when the search fails |
| Session.FindWith | index.jsx:157-234 | an invalid map is rejected with no change; a moved cursor means the press is exactly `Fresh`, which stores the map and the typed or recalled character and fails only for a repeat-last-input key with nothing recalled; a repeat that is not timed out changes neither map, character nor last mode; the invariant is preserved, including through the timeout retry |
| Session.Press | index.jsx:254-263 | a press runs `find_with`, then `clever_f#find` for a find command or the jump for a visual command; preserves the invariant |
| Properties.RepeatDirection | index.jsx:221-224 | on a repeat, back = (key upper-case) xor (fix-key-direction and stored map upper-case) |
| Properties.FixedKeyDirection | index.jsx:221-252 | with fix-key-direction a repeat searches in the pressed key's direction and keeps the session's find-or-till kind |
| Properties.RelativeKeyDirection | index.jsx:221-252 | without it, a lower-case key reruns the stored map and an upper-case key runs it case-swapped |
| Properties.OppositeKeysRunOppositeMotions | index.jsx:250-252 | `f` and `F` (or `t` and `T`) pressed on the same session run opposite motions |
| Properties.ResetMakesFresh | index.jsx:166 | after a reset no real cursor matches a recorded position |
| Properties.TimeoutRestartsFresh | index.jsx:226-230 | a timed-out repeat equals a fresh press on the reset state and stores the new character |
| Properties.NoPreviousInputOnlyAtStart | index.jsx:186-193 | in a reachable state a fresh press fails iff the key is a repeat-last-input key and no last mode is recorded |
| Properties.NoPreviousInputLeavesHalfSession | index.jsx:180-191 | as written, the failed fresh press leaves the map and `first_move` set with no character, so a later repeat calls `clever_f#find` with the Number 0, whose pattern searches the sign class |
| Properties.FirstMoveLifecycle | index.jsx:389-395 | outside the visual modes a fresh press leaves the mode on its first move; after a successful find it is not, and later searches carry no `c` flag |
| Properties.FreshTillAcceptsCursorMatch | index.jsx:389-395 | a first-move till starts with a `c` search from the cursor |
| Properties.FreshPressRecords | index.jsx:180-218 | outside the visual modes a fresh press with an ordinary character stores the map and that character for the mode; when its first-move search succeeds the cursor lands on the match, which is recorded for the mode, and the first move is over; when it fails nothing is recorded and the mode stays on its first move |
| Properties.FreshVisualPress | index.jsx:166-233 | in a visual mode a fresh press stores the map and character, then runs `s:move_cmd_for_visualmode` as a first move: on success it answers a jump to the match, records it for the mode and ends the first move; on failure it answers no motion, records nothing and stays on the first move |
| Properties.FreshRecallPress | index.jsx:180-233 | outside the visual modes, a fresh press with a repeat-last-input key after a character was typed copies the last mode's character into this mode, starts a first move, and answers `clever_f#find` with the typed map and that character (no motion for an ignored special key) |
| Properties.FreshThenRepeat | index.jsx:166-233 | outside the visual modes, right after a successful fresh press, a second press in the same mode before the timeout repeats the stored character, in the direction the key's case (and fix-key-direction) selects |
| Properties.FinalizerAfterFreshPress | index.jsx:200-205 | outside the visual modes, the cursor move of the fresh motion itself does not finalize; the finalizer is armed when the character is marked; any later move elsewhere finalizes |
| Properties.RepeatAtRest | index.jsx:219-233 | a press where the mode's last motion left the cursor reads no character and runs the stored character with the stored or swapped map, as `back` selects |
| Properties.FailedRepeatKeepsSession | index.jsx:281-284 | a repeat whose searches fail leaves the session as before (timestamp aside) and the cursor at the failing search's start |
| Properties.PressesStayWellFormed | index.jsx:180-193 | any sequence of presses keeps the session invariant |

## Left out

- The React page, the `react-vimjs` embedding and the file lists (`index.jsx:1-11`, `457-474`) only package the plugin.
- The plugin mapping file (`index.jsx:12-41`) only declares key bindings.
- Most highlight and redraw work is left out. This covers the cursor marker, `guicursor`/`t_ve` save and restore, `redraw`, the prompt and the highlight groups. These are screen effects. The `CleverFChar` match is kept as one optional `Mark`.
- The finalizer autocommands are modelled as one `finalizerArmed` flag and the transitions `Finalize`, `MaybeFinalize` and `WindowChange`, which the host is expected to run on `InsertEnter`, `CursorMoved` and window events. Their `<buffer>` scope is not modelled: one flag stands for the autocommands of every buffer.
- `s:getchar` and its terminal-sequence loop are replaced by the `input` field. A key interrupt during the read is not modelled.
- Regex matching is not modelled. `search()` is the abstract `Searcher`, and no regex semantics are given to the generated pattern.
- `reltime()` with float seconds is replaced by an integer millisecond clock. The timeout retry reads the same instant as the call it retries.
- Migemo matching is left out. `s:should_use_migemo` always answers 0, so `s:load_migemo_dict` and `s:migemo_dicts` can never be used.
- The text of the returned key sequence (`printf`/`string()`) is not modelled. The `Command` datatype carries its parts.
- Only the seven `mode(1)` keys the script names are modelled. `Press` assumes the host runs `clever_f#find` in the same mode as the press.
- `clever_f#helper#system`, `strchars` and `include_multibyte_char` are calls into the host that the engine never uses.
- Error messages (`echoerr`, `echo`) become `Error` values.
- Session.Find: reading an unset `s:moved_forward` or a missing `s:first_move` entry in the redraw condition is a Vim error. The model treats that condition as false, as `:if` does after the error, and does not report the error.
- Session.FindWith: relies on the host's 1-based cursor (`ValidPos`). With a `[0, 0]` cursor the source's timeout retry would not end.
