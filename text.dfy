/** String operations the board applies to card text: JavaScript's
    `String.prototype.trim` and `replace` with a one-character pattern. */
module Text {

  /** The label of a card's delete button, U+274C CROSS MARK. */
  const Cross: char := '\U{274C}'

  /** The characters `trim` removes: ECMAScript WhiteSpace and LineTerminator. */
  predicate IsSpace(c: char) {
    || c == ' ' || c == '\t' || c == '\n' || c == '\r'
    || c == '\U{000B}' || c == '\U{000C}' || c == '\U{00A0}' || c == '\U{1680}'
    || ('\U{2000}' <= c <= '\U{200A}')
    || c == '\U{2028}' || c == '\U{2029}' || c == '\U{202F}' || c == '\U{205F}'
    || c == '\U{3000}' || c == '\U{FEFF}'
  }

  predicate AllSpace(s: string) {
    forall i :: 0 <= i < |s| ==> IsSpace(s[i])
  }

  /** Neither starts nor ends with a whitespace character. */
  predicate IsTrimmed(s: string) {
    s == [] || (!IsSpace(s[0]) && !IsSpace(s[|s| - 1]))
  }

  /** Drops the leading whitespace: the result is the suffix of `s` after it. */
  function TrimStart(s: string): (r: string)
    ensures |r| <= |s| && r == s[|s| - |r|..]
    ensures AllSpace(s[..|s| - |r|])
    ensures r == [] || !IsSpace(r[0])
  {
    if s != [] && IsSpace(s[0]) then TrimStart(s[1..]) else s
  }

  /** Drops the trailing whitespace: the result is the prefix of `s` before it. */
  function TrimEnd(s: string): (r: string)
    ensures |r| <= |s| && r == s[..|r|]
    ensures AllSpace(s[|r|..])
    ensures r == [] || !IsSpace(r[|r| - 1])
  {
    if s != [] && IsSpace(s[|s| - 1]) then TrimEnd(s[..|s| - 1]) else s
  }

  /** `s.trim()`: whitespace removed from both ends. */
  function Trim(s: string): (r: string)
    ensures IsTrimmed(r) && |r| <= |s|
  {
    var t := TrimStart(s);
    var r := TrimEnd(t);
    assert IsTrimmed(r) by {
      if r != [] {
        assert r[0] == t[0];
      }
    }
    r
  }

  /** A string that is already trimmed is its own trim. */
  lemma {:induction false} TrimOfTrimmed(s: string)
    requires IsTrimmed(s)
    ensures Trim(s) == s
  {
    if s != [] {
      assert TrimStart(s) == s;
      assert TrimEnd(s) == s;
    }
  }

  /** `trim` is idempotent. */
  lemma TrimIdempotent(s: string)
    ensures Trim(Trim(s)) == Trim(s)
  {
    TrimOfTrimmed(Trim(s));
  }

  /** The trim is empty exactly when the string is whitespace only. */
  lemma {:induction false} TrimEmptyIff(s: string)
    ensures Trim(s) == [] <==> AllSpace(s)
  {
    if AllSpace(s) {
      TrimStartAllSpace(s);
    }
    var t := TrimStart(s);
    if TrimEnd(t) == [] {
      var i := |s| - |t|;
      assert AllSpace(s[..i]) && AllSpace(s[i..]);
      forall k | 0 <= k < |s|
        ensures IsSpace(s[k])
      {
        if k < i {
          assert s[..i][k] == s[k];
        } else {
          assert s[i..][k - i] == s[k];
        }
      }
    }
  }

  lemma {:induction false} TrimStartAllSpace(s: string)
    requires AllSpace(s)
    ensures TrimStart(s) == []
  {
    if s != [] {
      TrimStartAllSpace(s[1..]);
    }
  }

  /** `r` is the slice of `s` that starts at `a`, and everything in `s`
      before and after that slice is white space. */
  predicate SpaceAround(s: string, a: nat, r: string) {
    && a + |r| <= |s| && r == s[a..a + |r|]
    && AllSpace(s[..a]) && AllSpace(s[a + |r|..])
  }

  /** `trim` removes white space from the two ends and nothing else: the
      result is the slice of `s` between an all-white-space prefix and an
      all-white-space suffix. */
  lemma {:induction false} TrimSlice(s: string)
    ensures SpaceAround(s, |s| - |TrimStart(s)|, Trim(s))
  {
    var t := TrimStart(s);
    SliceOfSuffix(s, t, TrimEnd(t), |s| - |t|);
    TrimParts(s);
  }

  /** `trim` is the two one-sided trims, start first. */
  lemma TrimParts(s: string)
    ensures Trim(s) == TrimEnd(TrimStart(s))
  {
  }

  /** `r` is a prefix of the suffix `t` of `s` that starts at `a`, and what
      lies outside `r` is white space. */
  lemma {:induction false} SliceOfSuffix(s: string, t: string, r: string, a: nat)
    requires a <= |s| && t == s[a..] && AllSpace(s[..a])
    requires |r| <= |t| && r == t[..|r|] && AllSpace(t[|r|..])
    ensures SpaceAround(s, a, r)
  {
    assert s[a + |r|..] == t[|r|..];
  }

  /** The line terminators the `innerText` setter turns into `<br>` elements. */
  predicate IsBreak(c: char) {
    c == '\n' || c == '\r'
  }

  predicate NoBreaks(s: string) {
    forall i :: 0 <= i < |s| ==> !IsBreak(s[i])
  }

  /** The `textContent` of an element after `innerText = s`: each line break
      became a `<br>` element, which contributes no text. */
  function InnerText(s: string): (r: string)
    ensures NoBreaks(r) && |r| <= |s|
    ensures NoBreaks(s) ==> r == s
  {
    if s == [] then []
    else if IsBreak(s[0]) then InnerText(s[1..])
    else [s[0]] + InnerText(s[1..])
  }

  /** The conversion works character by character: it distributes over
      concatenation, keeps every other character and drops every break. */
  lemma {:induction false} InnerTextAppend(s: string, u: string)
    ensures InnerText(s + u) == InnerText(s) + InnerText(u)
    ensures |s| == 1 ==> InnerText(s) == if IsBreak(s[0]) then [] else s
  {
    if s != [] {
      assert (s + u)[1..] == s[1..] + u && (s + u)[0] == s[0];
      InnerTextAppend(s[1..], u);
      assert |s| == 1 ==> s[1..] == [];
    } else {
      assert s + u == u;
    }
  }

  /** Index of the first occurrence of `c` in `s`. */
  function FirstIndex(s: string, c: char): (i: nat)
    requires c in s
    ensures i < |s| && s[i] == c && c !in s[..i]
  {
    if s[0] == c then 0 else 1 + FirstIndex(s[1..], c)
  }

  /** `s.replace(c, '')` for a one-character pattern: removes the first
      occurrence of `c`, if any (see `RemoveFirstAt` and `RemoveFirstAbsent`). */
  function RemoveFirst(s: string, c: char): string {
    if s == [] then s
    else if s[0] == c then s[1..]
    else [s[0]] + RemoveFirst(s[1..], c)
  }

  /** The first `c` sits at index `i`: `replace` removes exactly that one and
      leaves the rest of `s` in order. */
  lemma {:induction false} RemoveFirstAt(s: string, c: char, i: nat)
    requires i < |s| && s[i] == c && c !in s[..i]
    ensures RemoveFirst(s, c) == s[..i] + s[i + 1..]
  {
    if i == 0 {
      assert s[..0] + s[1..] == s[1..];
    } else {
      assert s[0] == s[..i][0];
      assert s[1..][..i - 1] == s[1..i];
      RemoveFirstAt(s[1..], c, i - 1);
      assert [s[0]] + s[1..i] == s[..i];
      assert s[1..][i..] == s[i + 1..];
    }
  }

  /** Without a `c`, `replace` leaves the string unchanged. */
  lemma {:induction false} RemoveFirstAbsent(s: string, c: char)
    requires c !in s
    ensures RemoveFirst(s, c) == s
  {
    if s != [] {
      assert s[0] in s;
      RemoveFirstAbsent(s[1..], c);
      assert [s[0]] + s[1..] == s;
    }
  }

  /** When the text before a trailing `c` already holds a `c`, the first one
      is removed from the text and the trailing one survives. */
  lemma {:induction false} RemoveFirstBeforeTail(t: string, c: char)
    requires c in t
    ensures RemoveFirst(t + [c], c) == RemoveFirst(t, c) + [c]
  {
    var i, u := FirstIndex(t, c), t + [c];
    assert u[..i] == t[..i] && u[i + 1..] == t[i + 1..] + [c];
    RemoveFirstAt(u, c, i);
    RemoveFirstAt(t, c, i);
  }

  /** When the text holds no `c`, removing the first `c` of `t + [c]` gives back `t`. */
  lemma RemoveFirstOfTail(t: string, c: char)
    requires c !in t
    ensures RemoveFirst(t + [c], c) == t
  {
    var u := t + [c];
    assert u[..|t|] == t && u[|t| + 1..] == [];
    RemoveFirstAt(u, c, |t|);
  }
}
