/**
 * The string primitives the login path relies on: the ECMAScript `\s`
 * class, `String.prototype.toLowerCase` restricted to ASCII, and
 * `String.prototype.replace` with a one-character string pattern (which
 * replaces the first occurrence only).
 */
module Text {

  /**
   * The ECMAScript `\s` class: the WhiteSpace code points (tab, vertical tab,
   * form feed, space, no-break space, byte order mark and the space
   * separators) and the LineTerminator code points.
   */
  predicate IsWhitespace(c: char) {
    || '\t' <= c <= '\r'
    || c == ' ' || c == '\U{00A0}' || c == '\U{1680}'
    || '\U{2000}' <= c <= '\U{200A}'
    || c == '\U{2028}' || c == '\U{2029}' || c == '\U{202F}' || c == '\U{205F}'
    || c == '\U{3000}' || c == '\U{FEFF}'
  }

  predicate NoWhitespace(s: string) {
    forall i :: 0 <= i < |s| ==> !IsWhitespace(s[i])
  }

  /** `s.replace(/\s/g, '')`: every whitespace character removed, the rest kept in order. */
  function StripWhitespace(s: string): (r: string)
    ensures NoWhitespace(r)
    ensures |r| <= |s|
    ensures NoWhitespace(s) ==> r == s
  {
    if |s| == 0 then []
    else if IsWhitespace(s[0]) then StripWhitespace(s[1..])
    else [s[0]] + StripWhitespace(s[1..])
  }

  /** Stripping distributes over concatenation: whitespace is removed wherever it occurs. */
  lemma {:induction false} StripAppend(a: string, b: string)
    ensures StripWhitespace(a + b) == StripWhitespace(a) + StripWhitespace(b)
    decreases |a|
  {
    if |a| == 0 {
      assert a + b == b;
    } else {
      assert (a + b)[1..] == a[1..] + b;
      StripAppend(a[1..], b);
    }
  }

  /** Stripping twice is stripping once. */
  lemma StripIdempotent(s: string)
    ensures StripWhitespace(StripWhitespace(s)) == StripWhitespace(s)
  {
  }

  /** Each non-whitespace character survives stripping as often as it occurred. */
  lemma {:induction false} StripKeepsOthers(s: string, c: char)
    requires !IsWhitespace(c)
    ensures multiset(StripWhitespace(s))[c] == multiset(s)[c]
    decreases |s|
  {
    if |s| > 0 {
      assert s == [s[0]] + s[1..];
      StripKeepsOthers(s[1..], c);
    }
  }

  predicate IsAsciiUpper(c: char) {
    'A' <= c <= 'Z'
  }

  /** `toLowerCase` on one character, for the ASCII letters. */
  function LowerChar(c: char): (r: char)
    ensures !IsAsciiUpper(r)
    ensures IsAsciiUpper(c) ==> r as int == c as int + 32
    ensures !IsAsciiUpper(c) ==> r == c
  {
    if IsAsciiUpper(c) then (c as int + 32) as char else c
  }

  function Lower(s: string): (r: string)
    ensures |r| == |s|
    ensures forall i :: 0 <= i < |s| ==> r[i] == LowerChar(s[i])
  {
    seq(|s|, i requires 0 <= i < |s| => LowerChar(s[i]))
  }

  /** Lower-casing a lower-case string changes nothing, so it is idempotent. */
  lemma LowerIdempotent(s: string)
    ensures Lower(Lower(s)) == Lower(s)
  {
  }

  /** A string is its own lower-case form iff it holds no ASCII capital. */
  lemma LowerFixedIff(s: string)
    ensures Lower(s) == s <==> forall i :: 0 <= i < |s| ==> !IsAsciiUpper(s[i])
  {
    if Lower(s) == s {
      forall i | 0 <= i < |s| ensures !IsAsciiUpper(s[i]) {
        assert s[i] == Lower(s)[i];
      }
    }
  }

  /** The index of the first `c` in `s`. */
  function IndexOf(s: string, c: char): (i: nat)
    requires c in s
    ensures i < |s| && s[i] == c
    ensures forall j :: 0 <= j < i ==> s[j] != c
  {
    if s[0] == c then 0
    else
      assert c in s[1..] by { var k :| 0 <= k < |s| && s[k] == c; assert s[1..][k - 1] == c; }
      IndexOf(s[1..], c) + 1
  }

  /** `s.replace(c, '')` with a one-character string pattern: only the first `c` goes. */
  function RemoveFirst(s: string, c: char): (r: string)
    ensures c !in s ==> r == s
    ensures c in s ==> r == s[..IndexOf(s, c)] + s[IndexOf(s, c) + 1..]
    ensures |r| == if c in s then |s| - 1 else |s|
  {
    if |s| == 0 then s
    else if s[0] == c then s[1..]
    else
      var t := RemoveFirst(s[1..], c);
      assert c in s <==> c in s[1..] by {
        if c in s { var k :| 0 <= k < |s| && s[k] == c; assert s[1..][k - 1] == c; }
      }
      [s[0]] + t
  }

  /**
   * The strings that lose their first `c` to become `v` (which has no `c`)
   * are exactly `v` itself and `v` with one `c` inserted somewhere.
   */
  lemma RemoveFirstYields(t: string, v: string, c: char)
    requires c !in v
    ensures RemoveFirst(t, c) == v <==>
      (t == v || exists i :: 0 <= i <= |v| && t == v[..i] + [c] + v[i..])
  {
    if RemoveFirst(t, c) == v && c in t {
      var i := IndexOf(t, c);
      assert t == t[..i] + [c] + t[i + 1..];
      assert v[..i] == t[..i] && v[i..] == t[i + 1..];
    }
    if exists i :: 0 <= i <= |v| && t == v[..i] + [c] + v[i..] {
      var i :| 0 <= i <= |v| && t == v[..i] + [c] + v[i..];
      assert t[i] == c;
      assert c in t;
      assert t[..i] == v[..i];
      var j := IndexOf(t, c);
      assert j == i;
      assert t[i + 1..] == v[i..];
      assert v == v[..i] + v[i..];
    }
  }
}
