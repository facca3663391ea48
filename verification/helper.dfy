/** The `clever_f#helper#` autoload functions that the motion engine uses. */
module Helper {

  /** `clever_f#helper#xor`: the fallback definition used when Vim has no
      built-in `xor()`, written with `&&`/`||` exactly as the plugin does. */
  function Xor(a: bool, b: bool): (r: bool)
    ensures r <==> a != b
  {
    (a && !b) || (!a && b)
  }
}
