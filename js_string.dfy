/** The three JavaScript string operations the to-do list uses:
    String.prototype.trim (for the blank check when a task is added),
    String.prototype.toLowerCase and String.prototype.includes (for the
    case-insensitive search). */
module JsString {
  /** The code points `trim` removes: ECMAScript's WhiteSpace (section 12.2
      of ECMA-262: TAB, VT, FF, ZWNBSP and every space separator of category
      Zs) and LineTerminator (section 12.3: LF, CR, LS, PS). All of them lie
      in the Basic Multilingual Plane, so each is one UTF-16 code unit, and
      no ASCII letter or digit is among them. */
  predicate IsWhitespace(c: char)
    ensures IsWhitespace(c) ==> c as int < 0x1_0000
    ensures IsWhitespace(c) ==> !('0' <= c <= '9' || 'A' <= c <= 'Z' || 'a' <= c <= 'z')
  {
    var n := c as int;
    n == 0x09 || n == 0x0A || n == 0x0B || n == 0x0C || n == 0x0D
    || n == 0x20 || n == 0xA0 || n == 0x1680 || (0x2000 <= n <= 0x200A)
    || n == 0x2028 || n == 0x2029 || n == 0x202F || n == 0x205F
    || n == 0x3000 || n == 0xFEFF
  }

  /** Every character of `s` is whitespace (the empty string included). */
  predicate IsBlank(s: string) {
    forall i :: 0 <= i < |s| ==> IsWhitespace(s[i])
  }

  /** `s` with its leading whitespace removed: a suffix of `s` that does not
      start with whitespace, everything before it being whitespace. */
  function TrimStart(s: string): (r: string)
    ensures |r| <= |s| && r == s[|s| - |r|..]
    ensures r == [] || !IsWhitespace(r[0])
    ensures forall i :: 0 <= i < |s| - |r| ==> IsWhitespace(s[i])
  {
    if s != [] && IsWhitespace(s[0]) then TrimStart(s[1..]) else s
  }

  /** `s` with its trailing whitespace removed: a prefix of `s` that does not
      end with whitespace, everything after it being whitespace. */
  function TrimEnd(s: string): (r: string)
    ensures |r| <= |s| && r == s[..|r|]
    ensures r == [] || !IsWhitespace(r[|r| - 1])
    ensures forall i :: |r| <= i < |s| ==> IsWhitespace(s[i])
  {
    if s != [] && IsWhitespace(s[|s| - 1]) then TrimEnd(s[..|s| - 1]) else s
  }

  /** `s.trim()`: `s` with its leading and trailing whitespace removed. The
      result is a slice of `s` with only whitespace on either side of it and
      neither end of it whitespace; it is empty exactly when `s` is blank. */
  function Trim(s: string): (r: string)
    ensures exists k :: (0 <= k && k + |r| <= |s| && r == s[k..k + |r|]
                         && IsBlank(s[..k]) && IsBlank(s[k + |r|..]))
    ensures r == [] || (!IsWhitespace(r[0]) && !IsWhitespace(r[|r| - 1]))
    ensures r == [] <==> IsBlank(s)
  {
    var t := TrimStart(s);
    var r := TrimEnd(t);
    BetweenBlanks(s, t, r);
    r
  }

  /** A prefix of a suffix of `s`, with only whitespace cut off on either
      side, is a slice of `s` lying between two blank pieces of `s`. */
  lemma BetweenBlanks(s: string, t: string, r: string)
    requires |t| <= |s| && t == s[|s| - |t|..]
    requires forall i :: 0 <= i < |s| - |t| ==> IsWhitespace(s[i])
    requires |r| <= |t| && r == t[..|r|]
    requires forall i :: |r| <= i < |t| ==> IsWhitespace(t[i])
    requires r == [] || !IsWhitespace(r[0])
    ensures exists k :: (0 <= k && k + |r| <= |s| && r == s[k..k + |r|]
                         && IsBlank(s[..k]) && IsBlank(s[k + |r|..]))
    ensures r == [] <==> IsBlank(s)
  {
    var k := |s| - |t|;
    if r != [] {
      assert s[k] == t[0] == r[0];
    } else {
      assert IsBlank(s) by {
        forall i | 0 <= i < |s| ensures IsWhitespace(s[i]) {
          if k <= i {
            assert s[i] == t[i - k];
          }
        }
      }
    }
    assert r == s[k..k + |r|];
    assert IsBlank(s[..k]) by {
      forall i | 0 <= i < k ensures IsWhitespace(s[..k][i]) {
        assert s[..k][i] == s[i];
      }
    }
    assert IsBlank(s[k + |r|..]) by {
      var tail := s[k + |r|..];
      assert tail == t[|r|..];
      forall j | 0 <= j < |tail| ensures IsWhitespace(tail[j]) {
        var i := |r| + j;
        assert tail[j] == t[i];
      }
    }
  }

  /** ASCII lowercasing of one character; every other character is kept. */
  function LowerChar(c: char): (d: char)
    ensures !('A' <= d <= 'Z')
    ensures 'A' <= c <= 'Z' ==> d as int == c as int + 32
    ensures !('A' <= c <= 'Z') ==> d == c
  {
    if 'A' <= c <= 'Z' then (c as int + 32) as char else c
  }

  /** `s.toLowerCase()`, restricted to ASCII letters. */
  function ToLower(s: string): (r: string)
    ensures |r| == |s|
    ensures forall i :: 0 <= i < |s| ==> r[i] == LowerChar(s[i])
  {
    seq(|s|, i requires 0 <= i < |s| => LowerChar(s[i]))
  }

  /** Lowercasing a lowercased string changes nothing. */
  lemma ToLowerIdempotent(s: string)
    ensures ToLower(ToLower(s)) == ToLower(s)
  {
  }

  /** `q` occurs in `s` starting at position `i`. */
  ghost predicate OccursAt(s: string, q: string, i: int) {
    0 <= i && i + |q| <= |s| && s[i..i + |q|] == q
  }

  /** `s.startsWith(q)`. */
  predicate StartsWith(s: string, q: string) {
    |q| <= |s| && s[..|q|] == q
  }

  /** `s.includes(q)`: try every starting position from the left. Every
      string includes the empty string, and a string never includes a longer
      one. */
  predicate Includes(s: string, q: string)
    ensures q == [] ==> Includes(s, q)
    ensures Includes(s, q) ==> |q| <= |s|
    decreases |s|
  {
    StartsWith(s, q) || (s != [] && Includes(s[1..], q))
  }

  /** `includes` finds `q` exactly when `q` occurs somewhere in `s`. */
  lemma {:induction false} IncludesIff(s: string, q: string)
    ensures Includes(s, q) <==> exists i :: OccursAt(s, q, i)
    decreases |s|
  {
    if StartsWith(s, q) {
      assert OccursAt(s, q, 0);
    } else if s == [] {
      assert forall i :: !OccursAt(s, q, i);
    } else {
      IncludesIff(s[1..], q);
      forall i | 1 <= i
        ensures OccursAt(s, q, i) == OccursAt(s[1..], q, i - 1)
      {
        if i + |q| <= |s| {
          assert s[1..][i - 1..i - 1 + |q|] == s[i..i + |q|];
        }
      }
      assert !OccursAt(s, q, 0);
      if Includes(s[1..], q) {
        var j :| OccursAt(s[1..], q, j);
        assert OccursAt(s, q, j + 1);
      }
    }
  }
}
