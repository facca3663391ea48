/** The `g:clever_f_*` options that change what the engine computes. */
module Settings {

  datatype Config = Config(
    acrossNoLine: bool,           // g:clever_f_across_no_line
    ignoreCase: bool,             // g:clever_f_ignore_case
    smartCase: bool,              // g:clever_f_smart_case
    fixKeyDirection: bool,        // g:clever_f_fix_key_direction
    charsMatchAnySigns: string,   // g:clever_f_chars_match_any_signs
    markChar: bool,               // g:clever_f_mark_char
    cleanLabelsEagerly: bool,     // g:clever_f_clean_labels_eagerly
    timeoutMs: int,               // g:clever_f_timeout_ms
    repeatLastCharInputs: seq<string>  // g:clever_f_repeat_last_char_inputs
  )

  /** The values the plugin assigns when the user sets nothing
      (the repeat-last-input default is `<CR>`). */
  const DefaultConfig := Config(false, false, false, false, "", true, true, 0, ["\r"])
}
