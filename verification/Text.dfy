/** The parts of Rust's string handling that the models share. */
module Text {

  /** The Unicode White_Space characters, which `str::trim` removes. */
  predicate IsSpace(c: char) {
    var n := c as int;
    || 0x09 <= n <= 0x0d || n == 0x20 || n == 0x85 || n == 0xa0 || n == 0x1680
    || 0x2000 <= n <= 0x200a || n == 0x2028 || n == 0x2029 || n == 0x202f
    || n == 0x205f || n == 0x3000
  }

  function TrimStart(s: string): string {
    if s != [] && IsSpace(s[0]) then TrimStart(s[1..]) else s
  }

  function TrimEnd(s: string): string {
    if s != [] && IsSpace(s[|s| - 1]) then TrimEnd(s[..|s| - 1]) else s
  }

  function Trim(s: string): string {
    TrimEnd(TrimStart(s))
  }

  /** Neither end is white space. */
  predicate Trimmed(s: string) {
    s != [] ==> !IsSpace(s[0]) && !IsSpace(s[|s| - 1])
  }

  lemma {:induction false} TrimEndResult(s: string)
    ensures var r := TrimEnd(s);
            r <= s && (r != [] ==> !IsSpace(r[|r| - 1]))
  {
    if s != [] && IsSpace(s[|s| - 1]) {
      TrimEndResult(s[..|s| - 1]);
    }
  }

  lemma {:induction false} TrimStartResult(s: string)
    ensures var r := TrimStart(s);
            (r != [] ==> !IsSpace(r[0])) && forall c :: c in r ==> c in s
  {
    if s != [] && IsSpace(s[0]) {
      TrimStartResult(s[1..]);
    }
  }

  /** Trimming removes white space at the ends, adds nothing, and is the identity on trimmed text. */
  lemma TrimResult(s: string)
    ensures Trimmed(Trim(s))
    ensures forall c :: c in Trim(s) ==> c in s
    ensures Trimmed(s) ==> Trim(s) == s
  {
    TrimStartResult(s);
    TrimEndResult(TrimStart(s));
    var r := Trim(s);
    assert forall i :: 0 <= i < |r| ==> r[i] == TrimStart(s)[i];
  }
}
