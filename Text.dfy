/** The string operations the asset list calls on JavaScript strings:
    `trim`, `toLowerCase`, `includes` and `localeCompare`, stated over
    `seq<char>`. */
module Text {

  /** The code points ECMAScript counts as WhiteSpace or LineTerminator,
      which is what `String.prototype.trim` strips from both ends. */
  predicate IsWhitespace(c: char) {
    var n := c as int;
    n == 0x09 || n == 0x0A || n == 0x0B || n == 0x0C || n == 0x0D || n == 0x20
    || n == 0xA0 || n == 0x1680 || (0x2000 <= n <= 0x200A) || n == 0x2028
    || n == 0x2029 || n == 0x202F || n == 0x205F || n == 0x3000 || n == 0xFEFF
  }

  /** `s` with its leading white space removed. */
  function TrimStart(s: string): (r: string)
    ensures |r| <= |s| && r == s[|s| - |r|..]
    ensures forall k :: 0 <= k < |s| - |r| ==> IsWhitespace(s[k])
    ensures r != [] ==> !IsWhitespace(r[0])
  {
    if s != [] && IsWhitespace(s[0]) then TrimStart(s[1..]) else s
  }

  /** `s` with its trailing white space removed. */
  function TrimEnd(s: string): (r: string)
    ensures |r| <= |s| && r == s[..|r|]
    ensures forall k :: |r| <= k < |s| ==> IsWhitespace(s[k])
    ensures r != [] ==> !IsWhitespace(r[|r| - 1])
  {
    if s != [] && IsWhitespace(s[|s| - 1]) then TrimEnd(s[..|s| - 1]) else s
  }

  /** `q` occurs in `s` starting at position `i`. */
  predicate OccursAt(s: string, q: string, i: nat) {
    i + |q| <= |s| && s[i..i + |q|] == q
  }

  /** `s.trim()`: white space cut off at both ends. */
  function Trim(s: string): (r: string)
    ensures |r| <= |s|
    ensures r != [] ==> !IsWhitespace(r[0]) && !IsWhitespace(r[|r| - 1])
    ensures r == [] <==> forall k :: 0 <= k < |s| ==> IsWhitespace(s[k])
  {
    var t := TrimStart(s);
    var r := TrimEnd(t);
    assert r != [] ==> r[0] == t[0];
    r
  }

  /** What `Trim` keeps is one contiguous slice of its input, and all it
      drops on either side is white space. */
  lemma TrimIsSlice(s: string)
    ensures exists i: nat :: OccursAt(s, Trim(s), i)
                        && (forall k :: 0 <= k < i ==> IsWhitespace(s[k]))
                        && (forall k :: i + |Trim(s)| <= k < |s| ==> IsWhitespace(s[k]))
  {
    var i := |s| - |TrimStart(s)|;
    assert Trim(s) == TrimEnd(s[i..]);
    TrimEndOfSuffix(s, i);
    assert forall k :: 0 <= k < i ==> IsWhitespace(s[k]);
  }

  /** Trimming the end of a suffix `s[i..]` leaves a slice of `s` starting at
      `i`, followed in `s` only by white space. */
  lemma TrimEndOfSuffix(s: string, i: nat)
    requires i <= |s|
    ensures OccursAt(s, TrimEnd(s[i..]), i)
    ensures forall k :: i + |TrimEnd(s[i..])| <= k < |s| ==> IsWhitespace(s[k])
  {
    var t := s[i..];
    var r := TrimEnd(t);
    assert r == s[i..i + |r|];
    forall k | i + |r| <= k < |s| ensures IsWhitespace(s[k]) {
      assert s[k] == t[k - i];
    }
  }

  /** A blank on either side of a word is trimmed away. */
  lemma TrimPadded(q: string)
    requires q != [] && !IsWhitespace(q[0]) && !IsWhitespace(q[|q| - 1])
    ensures Trim([' '] + q + [' ']) == q
  {
    var s := [' '] + q + [' '];
    assert s[1..] == q + [' '];
    assert TrimStart(s) == TrimStart(q + [' ']) == q + [' '];
    assert (q + [' '])[..|q|] == q;
    assert TrimEnd(q + [' ']) == TrimEnd(q) == q;
  }

  /** Lower-cases one character: only the ASCII capitals change. */
  function LowerChar(c: char): char {
    if 'A' <= c <= 'Z' then (c as int + 32) as char else c
  }

  /** `s.toLowerCase()`, restricted to ASCII. */
  function ToLower(s: string): (r: string)
    ensures |r| == |s|
    ensures forall k :: 0 <= k < |s| ==> r[k] == LowerChar(s[k])
    ensures forall k :: 0 <= k < |r| ==> !('A' <= r[k] <= 'Z')
  {
    if s == [] then [] else [LowerChar(s[0])] + ToLower(s[1..])
  }

  /** Lower-casing changes nothing in a string without capitals. */
  lemma ToLowerKeepsLower(s: string)
    requires forall k :: 0 <= k < |s| ==> !('A' <= s[k] <= 'Z')
    ensures ToLower(s) == s
  {
  }

  lemma OccursAtTail(s: string, q: string, i: nat)
    requires s != []
    ensures OccursAt(s, q, i + 1) == OccursAt(s[1..], q, i)
  {
    if i + 1 + |q| <= |s| {
      assert s[i + 1..i + 1 + |q|] == s[1..][i..i + |q|];
    }
  }

  /** `s.includes(q)`: `q` occurs as a contiguous slice of `s`. */
  function Includes(s: string, q: string): (r: bool)
    ensures r <==> exists i: nat :: OccursAt(s, q, i)
  {
    if OccursAt(s, q, 0) then
      true
    else if s == [] then
      assert forall i: nat :: !OccursAt(s, q, i);
      false
    else
      var r := Includes(s[1..], q);
      assert r ==> exists i: nat :: OccursAt(s, q, i) by {
        if r {
          var j: nat :| OccursAt(s[1..], q, j);
          OccursAtTail(s, q, j);
        }
      }
      assert (exists i: nat :: OccursAt(s, q, i)) ==> r by {
        if exists i: nat :: OccursAt(s, q, i) {
          var i: nat :| OccursAt(s, q, i);
          OccursAtTail(s, q, i - 1);
        }
      }
      r
  }

  /** `a.localeCompare(b)`, taken as ordinal comparison character by
      character: negative, zero or positive as `a` sorts before, with or
      after `b`. */
  function Compare(a: string, b: string): (r: int)
    ensures -1 <= r <= 1
    ensures r == 0 <==> a == b
  {
    if a == [] then (if b == [] then 0 else -1)
    else if b == [] then 1
    else if a[0] < b[0] then -1
    else if a[0] > b[0] then 1
    else
      var r := Compare(a[1..], b[1..]);
      assert a == [a[0]] + a[1..] && b == [b[0]] + b[1..];
      r
  }

  /** Lexicographic order, stated directly: `a` is a prefix of `b`, or the
      two agree up to a position where `a` has the smaller character. */
  predicate LexLe(a: string, b: string) {
    (|a| <= |b| && a == b[..|a|])
    || exists k :: 0 <= k < |a| && k < |b| && a[..k] == b[..k] && a[k] < b[k]
  }

  lemma {:induction false} CompareAntisymmetric(a: string, b: string)
    ensures Compare(b, a) == -Compare(a, b)
  {
    if a != [] && b != [] && a[0] == b[0] {
      CompareAntisymmetric(a[1..], b[1..]);
    }
  }

  lemma {:induction false} CompareTransitive(a: string, b: string, c: string)
    requires Compare(a, b) <= 0 && Compare(b, c) <= 0
    ensures Compare(a, c) <= 0
  {
    if a != [] && b != [] && c != [] && a[0] == b[0] == c[0] {
      CompareTransitive(a[1..], b[1..], c[1..]);
    }
  }

  lemma LexLeFirstGreater(a: string, b: string)
    requires a != [] && b != [] && a[0] > b[0]
    ensures !LexLe(a, b)
  {
    if exists k :: 0 <= k < |a| && k < |b| && a[..k] == b[..k] && a[k] < b[k] {
      var k :| 0 <= k < |a| && k < |b| && a[..k] == b[..k] && a[k] < b[k];
      assert k > 0 ==> a[..k][0] == b[..k][0];
    }
  }

  lemma LexLeTail(a: string, b: string)
    requires a != [] && b != [] && a[0] == b[0]
    ensures LexLe(a[1..], b[1..]) ==> LexLe(a, b)
  {
    var a', b' := a[1..], b[1..];
    assert a == [a[0]] + a' && b == [b[0]] + b';
    if LexLe(a', b') {
      if |a'| <= |b'| && a' == b'[..|a'|] {
        assert a == b[..|a|];
      } else {
        var k :| 0 <= k < |a'| && k < |b'| && a'[..k] == b'[..k] && a'[k] < b'[k];
        assert a[..k + 1] == [a[0]] + a'[..k] && b[..k + 1] == [b[0]] + b'[..k];
        assert a[k + 1] == a'[k] && b[k + 1] == b'[k];
      }
    }
  }

  lemma LexLeHead(a: string, b: string)
    requires a != [] && b != [] && a[0] == b[0]
    ensures LexLe(a, b) ==> LexLe(a[1..], b[1..])
  {
    var a', b' := a[1..], b[1..];
    if LexLe(a, b) {
      if |a| <= |b| && a == b[..|a|] {
        assert a' == b'[..|a'|];
      } else {
        var k :| 0 <= k < |a| && k < |b| && a[..k] == b[..k] && a[k] < b[k];
        assert k != 0;
        assert a'[..k - 1] == a[..k][1..] && b'[..k - 1] == b[..k][1..];
        assert a'[k - 1] == a[k] && b'[k - 1] == b[k];
      }
    }
  }

  /** `Compare` orders strings exactly as the lexicographic order does. */
  lemma {:induction false} CompareIsLexicographic(a: string, b: string)
    ensures Compare(a, b) <= 0 <==> LexLe(a, b)
  {
    if a == [] {
      assert a == b[..0];
    } else if b == [] {
    } else if a[0] < b[0] {
      assert a[..0] == b[..0];
    } else if a[0] > b[0] {
      LexLeFirstGreater(a, b);
    } else {
      CompareIsLexicographic(a[1..], b[1..]);
      LexLeHead(a, b);
      LexLeTail(a, b);
    }
  }
}
