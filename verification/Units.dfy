// Text as the client's language has it: a sequence of UTF-16 code units.
module Units {
  type Unit = x: int | 0 <= x < 0x10000

  type Text = seq<Unit>

  // The text of a literal.
  function Plain(s: string): (t: Text)
    ensures |t| == |s|
  {
    seq(|s|, i requires 0 <= i < |s| => (s[i] as int) % 0x10000)
  }
}
