/**
 * The two string operations the chat relies on: `String.prototype.trim`,
 * which the server applies to room names and the client to outgoing text,
 * and `String.prototype.toLowerCase`, which the server applies to room names.
 */
module Strings {

  /**
   * The characters `trim` removes: ECMAScript's WhiteSpace (tab, vertical
   * tab, form feed, the byte-order mark and every space separator) and its
   * LineTerminator (line feed, carriage return, the line and paragraph
   * separators).
   */
  predicate IsWhitespace(c: char) {
    var n := c as int;
    || 9 <= n <= 13
    || n == 0x20 || n == 0xA0 || n == 0x1680
    || 0x2000 <= n <= 0x200A
    || n == 0x2028 || n == 0x2029 || n == 0x202F || n == 0x205F
    || n == 0x3000 || n == 0xFEFF
  }

  /** The index of the first character at or after `i` that is not whitespace, or `|s|`. */
  function SkipLeading(s: string, i: nat): (j: nat)
    requires i <= |s|
    ensures i <= j <= |s|
    ensures forall k :: i <= k < j ==> IsWhitespace(s[k])
    ensures j < |s| ==> !IsWhitespace(s[j])
    decreases |s| - i
  {
    if i < |s| && IsWhitespace(s[i]) then SkipLeading(s, i + 1) else i
  }

  /**
   * The end of `s[lo..hi]` once its trailing whitespace is dropped: the
   * smallest `j` from which everything up to `hi` is whitespace.
   */
  function SkipTrailing(s: string, lo: nat, hi: nat): (j: nat)
    requires lo <= hi <= |s|
    ensures lo <= j <= hi
    ensures forall k :: j <= k < hi ==> IsWhitespace(s[k])
    ensures lo < j ==> !IsWhitespace(s[j - 1])
    decreases hi
  {
    if lo < hi && IsWhitespace(s[hi - 1]) then SkipTrailing(s, lo, hi - 1) else hi
  }

  /** Where the text kept by `trim` starts. */
  function TrimFrom(s: string): (a: nat)
    ensures a <= |s|
  {
    SkipLeading(s, 0)
  }

  /** Where the text kept by `trim` ends. */
  function TrimTo(s: string): (b: nat)
    ensures TrimFrom(s) <= b <= |s|
  {
    SkipTrailing(s, TrimFrom(s), |s|)
  }

  /** `s.trim()`: `s` without its leading and its trailing whitespace. */
  function Trim(s: string): (r: string)
    ensures |r| <= |s|
    ensures r != [] ==> !IsWhitespace(r[0]) && !IsWhitespace(r[|r| - 1])
  {
    s[TrimFrom(s)..TrimTo(s)]
  }

  /** What `trim` keeps is the slice between the leading and the trailing whitespace. */
  lemma TrimIsSlice(s: string)
    ensures var a, b := TrimFrom(s), TrimTo(s);
      && Trim(s) == s[a..b]
      && (forall i :: 0 <= i < a ==> IsWhitespace(s[i]))
      && (forall i :: b <= i < |s| ==> IsWhitespace(s[i]))
  {
  }

  /**
   * `trim` characterised: whitespace around a string with no whitespace at
   * either end is removed, and that string is kept exactly.
   */
  lemma TrimOfPadded(pre: string, t: string, post: string)
    requires forall i :: 0 <= i < |pre| ==> IsWhitespace(pre[i])
    requires forall i :: 0 <= i < |post| ==> IsWhitespace(post[i])
    requires t != [] ==> !IsWhitespace(t[0]) && !IsWhitespace(t[|t| - 1])
    ensures Trim(pre + t + post) == t
  {
    var s := pre + t + post;
    var a, b := TrimFrom(s), TrimTo(s);
    if t == [] {
      assert forall i :: 0 <= i < |s| ==> IsWhitespace(s[i]) by {
        forall i | 0 <= i < |s|
          ensures IsWhitespace(s[i])
        {
          if i < |pre| {
            assert s[i] == pre[i];
          } else {
            assert s[i] == post[i - |pre|];
          }
        }
      }
      assert a == |s|;
    } else {
      assert s[|pre|] == t[0];
      assert s[|pre| + |t| - 1] == t[|t| - 1];
      assert a == |pre|;
      assert b == |pre| + |t|;
      assert s[a..b] == t;
    }
  }

  /** A string with no whitespace at either end trims to itself. */
  lemma TrimUnpadded(s: string)
    requires s != [] ==> !IsWhitespace(s[0]) && !IsWhitespace(s[|s| - 1])
    ensures Trim(s) == s
  {
    TrimOfPadded([], s, []);
    assert [] + s + [] == s;
  }

  /** `trim` leaves nothing to remove. */
  lemma TrimIdempotent(s: string)
    ensures Trim(Trim(s)) == Trim(s)
  {
    TrimUnpadded(Trim(s));
  }

  /** A string trims to nothing exactly when every character of it is whitespace. */
  lemma TrimEmptyIff(s: string)
    ensures Trim(s) == [] <==> forall i :: 0 <= i < |s| ==> IsWhitespace(s[i])
  {
    TrimIsSlice(s);
  }

  /** `toLowerCase` on one character; only the ASCII capitals are mapped. */
  function LowerChar(c: char): (r: char)
    ensures 'A' <= c <= 'Z' ==> 'a' <= r <= 'z' && r as int - c as int == 32
    ensures !('A' <= c <= 'Z') ==> r == c
  {
    if 'A' <= c <= 'Z' then (c as int + 32) as char else c
  }

  /** `s.toLowerCase()`, character by character. */
  function ToLower(s: string): (r: string)
    ensures |r| == |s|
    ensures forall i :: 0 <= i < |s| ==> r[i] == LowerChar(s[i])
    ensures forall i :: 0 <= i < |r| ==> !('A' <= r[i] <= 'Z')
  {
    seq(|s|, i requires 0 <= i < |s| => LowerChar(s[i]))
  }

  /** Lower-casing twice is lower-casing once. */
  lemma ToLowerIdempotent(s: string)
    ensures ToLower(ToLower(s)) == ToLower(s)
  {
  }

  /** Lower-casing neither creates nor removes whitespace. */
  lemma LowerCharWhitespace(c: char)
    ensures IsWhitespace(LowerChar(c)) <==> IsWhitespace(c)
  {
  }

  /** Lower-casing a string with no whitespace at either end keeps it so. */
  lemma LowerCasedEnds(t: string)
    requires t != [] ==> !IsWhitespace(t[0]) && !IsWhitespace(t[|t| - 1])
    ensures var r := ToLower(t); r != [] ==> !IsWhitespace(r[0]) && !IsWhitespace(r[|r| - 1])
  {
    if t != [] {
      LowerCharWhitespace(t[0]);
      LowerCharWhitespace(t[|t| - 1]);
    }
  }

  /** The room-name normalisation of the server: `name.trim().toLowerCase()`. */
  function Normalize(name: string): (r: string)
    ensures |r| <= |name|
    ensures r != [] ==> !IsWhitespace(r[0]) && !IsWhitespace(r[|r| - 1])
    ensures forall i :: 0 <= i < |r| ==> !('A' <= r[i] <= 'Z')
  {
    var t := Trim(name);
    LowerCasedEnds(t);
    ToLower(t)
  }

  /** A string without ASCII capitals lower-cases to itself. */
  lemma ToLowerNoCapitals(s: string)
    requires forall i :: 0 <= i < |s| ==> !('A' <= s[i] <= 'Z')
    ensures ToLower(s) == s
  {
  }

  /** A normalised name normalises to itself, so joining it again names the same room. */
  lemma NormalizeIdempotent(name: string)
    ensures Normalize(Normalize(name)) == Normalize(name)
  {
    var n := Normalize(name);
    TrimUnpadded(n);
    ToLowerNoCapitals(n);
  }

  /** Surrounding whitespace does not change the room a name denotes. */
  lemma NormalizeIgnoresPadding(pre: string, name: string, post: string)
    requires forall i :: 0 <= i < |pre| ==> IsWhitespace(pre[i])
    requires forall i :: 0 <= i < |post| ==> IsWhitespace(post[i])
    ensures Normalize(pre + name + post) == Normalize(name)
  {
    TrimIsSlice(name);
    var a, b := TrimFrom(name), TrimTo(name);
    var p, q := pre + name[..a], name[b..] + post;
    assert pre + name + post == p + Trim(name) + q by {
      assert name == name[..a] + name[a..b] + name[b..];
    }
    assert forall i :: 0 <= i < |p| ==> IsWhitespace(p[i]) by {
      forall i | 0 <= i < |p|
        ensures IsWhitespace(p[i])
      {
        if i >= |pre| {
          assert p[i] == name[i - |pre|];
        }
      }
    }
    assert forall i :: 0 <= i < |q| ==> IsWhitespace(q[i]) by {
      forall i | 0 <= i < |q|
        ensures IsWhitespace(q[i])
      {
        if i < |name| - b {
          assert q[i] == name[b + i];
        } else {
          assert q[i] == post[i - (|name| - b)];
        }
      }
    }
    TrimOfPadded(p, Trim(name), q);
  }
}
