// Shared result types, and letter case.
module Common {
  /** A value that may be absent: a nullable column, an unset field, a lookup that may miss. */
  datatype Option<+T> = None | Some(value: T) {
    /** The value, or `default` when there is none. */
    function GetOr(default: T): T {
      if Some? then value else default
    }
  }

  /** A value or the reason there is none: a thrown error or a failed statement. */
  datatype Result<+T, +E> = Ok(value: T) | Err(error: E)

  function LowerChar(c: char): char {
    if 'A' <= c <= 'Z' then c - 'A' + 'a' else c
  }

  function Lower(s: string): string {
    seq(|s|, i requires 0 <= i < |s| => LowerChar(s[i]))
  }

  /** The one is a capital letter of the other. */
  predicate Capital(c: char, d: char) { 'A' <= c <= 'Z' && d as int == c as int + 32 }

  /** Equal but for the case of ASCII letters. */
  predicate SameButCase(s: string, t: string) {
    |s| == |t| && forall i | 0 <= i < |s| :: s[i] == t[i] || Capital(s[i], t[i]) || Capital(t[i], s[i])
  }

  lemma LowerIffSame(s: string, t: string)
    ensures Lower(s) == Lower(t) <==> SameButCase(s, t)
  {
    if Lower(s) == Lower(t) {
      forall i | 0 <= i < |s| ensures s[i] == t[i] || Capital(s[i], t[i]) || Capital(t[i], s[i]) {
        assert Lower(s)[i] == Lower(t)[i];
      }
    }
  }
}
