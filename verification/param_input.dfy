/**
 * The parameter editor (src/components/ParamInput.tsx): a switch for `bool` parameters,
 * whose state is carried as a string, and a text box for every other type.
 */
module ParamInput {
  import opened ConfigTypes

  /** Toggling the switch emits `"true"` or `"false"`. */
  function EncodeBool(b: bool): (v: string)
    ensures v == "true" || v == "false"
  {
    if b then "true" else "false"
  }

  /**
   * The switch is on for `"true"` and for `"on"`; reading back a string the switch emitted
   * gives the state it was emitted for.
   */
  predicate DecodeBool(v: string)
    ensures forall b :: EncodeBool(b) == v ==> DecodeBool(v) == b
  {
    v == "true" || v == "on"
  }

  /** What the editor shows for a value. */
  datatype Widget = Switch(on: bool) | TextBox(text: string)

  function Render(t: ParamType, value: string): (w: Widget)
    ensures t == Bool <==> w.Switch?
    ensures w.Switch? ==> w.on == DecodeBool(value)
    ensures w.TextBox? ==> w.text == value
  {
    if t == Bool then Switch(DecodeBool(value)) else TextBox(value)
  }

  /**
   * The value the editor reports when the widget changes: a switch reports a string that
   * reads back as its state, a text box its text.
   */
  function Emit(w: Widget): (v: string)
    ensures w.Switch? ==> (v == "true" || v == "false") && DecodeBool(v) == w.on
    ensures w.TextBox? ==> v == w.text
  {
    match w
    case Switch(on) => EncodeBool(on)
    case TextBox(text) => text
  }

  /** Decoding what the switch emits gives back the switch state. */
  lemma DecodeEncode(b: bool)
    ensures DecodeBool(EncodeBool(b)) == b
  {
  }

  /**
   * Encoding the decoded state gives back exactly the canonical strings; `"on"` is read as
   * on but written back as `"true"`.
   */
  lemma EncodeDecode(v: string)
    ensures EncodeBool(DecodeBool(v)) == v <==> v == "true" || v == "false"
    ensures v == "on" ==> EncodeBool(DecodeBool(v)) == "true"
  {
  }

  /** A switch shows what it emitted, and a text box passes the value through untouched. */
  lemma RenderEmit(t: ParamType, w: Widget)
    requires (t == Bool) == w.Switch?
    ensures Render(t, Emit(w)) == w
  {
    if w.Switch? {
      DecodeEncode(w.on);
    }
  }

  /** A non-bool value is shown and reported verbatim. */
  lemma TextPassThrough(t: ParamType, value: string)
    requires t != Bool
    ensures Emit(Render(t, value)) == value
  {
  }
}
