// Characters and white space.
module Text {
  // The Unicode White_Space characters.
  predicate Whitespace(c: char) {
    var n := c as int;
    9 <= n <= 13 || n == 0x20 || n == 0x85 || n == 0xA0 || n == 0x1680 || 0x2000 <= n <= 0x200A
    || n == 0x2028 || n == 0x2029 || n == 0x202F || n == 0x205F || n == 0x3000
  }

  function Trim(s: string): string {
    if s == "" then ""
    else if Whitespace(s[0]) then Trim(s[1..])
    else if Whitespace(s[|s| - 1]) then Trim(s[..|s| - 1])
    else s
  }

  predicate Blank(s: string) { forall c | c in s :: Whitespace(c) }

  // Trimming takes off white space at either end and all of it.
  lemma {:induction false} TrimExactly(s: string) returns (left: string, right: string)
    ensures s == left + Trim(s) + right && Blank(left) && Blank(right)
    ensures var t := Trim(s); t == "" || (!Whitespace(t[0]) && !Whitespace(t[|t| - 1]))
    decreases |s|
  {
    left, right := "", "";
    if s == "" {
    } else if Whitespace(s[0]) {
      left, right := TrimExactly(s[1..]);
      assert s == [s[0]] + s[1..];
      left := [s[0]] + left;
    } else if Whitespace(s[|s| - 1]) {
      left, right := TrimExactly(s[..|s| - 1]);
      assert s == s[..|s| - 1] + [s[|s| - 1]];
      right := right + [s[|s| - 1]];
    }
  }
}
