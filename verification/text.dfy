/** The few JavaScript string operations the screens rely on: `trim`-based
    blank checks, ASCII upper-casing, `split(' ')`, prefix and substring
    tests, and the "first letter of every word" avatar initials. */
module Text {

  /** A character JavaScript's `String.prototype.trim` strips: the ECMAScript
      WhiteSpace and LineTerminator code points. */
  predicate IsSpace(c: char)
  {
    || c == ' ' || c == '\t' || c == '\n' || c == '\r' || c == '\U{000B}' || c == '\U{000C}'
    || c == '\U{00A0}' || c == '\U{FEFF}' || c == '\U{1680}'
    || ('\U{2000}' <= c <= '\U{200A}')
    || c == '\U{2028}' || c == '\U{2029}' || c == '\U{202F}' || c == '\U{205F}' || c == '\U{3000}'
  }

  /** `s.trim()` yields the empty string (so `!s.trim()` holds). */
  predicate IsBlank(s: string)
  {
    forall i :: 0 <= i < |s| ==> IsSpace(s[i])
  }

  /** `toUpperCase` on one character, restricted to ASCII letters. */
  function UpperChar(c: char): (u: char)
    ensures 'a' <= c <= 'z' ==> 'A' <= u <= 'Z'
    ensures !('a' <= c <= 'z') ==> u == c
  {
    if 'a' <= c <= 'z' then (c as int - 32) as char else c
  }

  /** `s.toUpperCase()`, character by character. */
  function ToUpper(s: string): (r: string)
    ensures |r| == |s|
    ensures forall i :: 0 <= i < |s| ==> r[i] == UpperChar(s[i])
  {
    if |s| == 0 then "" else [UpperChar(s[0])] + ToUpper(s[1..])
  }

  lemma ToUpperAppend(a: string, b: string)
    ensures ToUpper(a + b) == ToUpper(a) + ToUpper(b)
  {
  }

  /** `s.split(' ')`: the maximal runs between single spaces, including the
      empty runs around leading, trailing and doubled spaces. */
  function Split(s: string): (ws: seq<string>)
    ensures |ws| >= 1
    ensures forall k :: 0 <= k < |ws| ==> ' ' !in ws[k]
  {
    if |s| == 0 then [""]
    else
      var rest := Split(s[1..]);
      if s[0] == ' ' then [""] + rest
      else [[s[0]] + rest[0]] + rest[1..]
  }

  /** `words.map(n => n[0]).join('')`: `n[0]` of an empty word is `undefined`,
      which `join` renders as nothing. */
  function JoinFirsts(ws: seq<string>): string
  {
    if |ws| == 0 then ""
    else (if |ws[0]| > 0 then [ws[0][0]] else "") + JoinFirsts(ws[1..])
  }

  /** `name.split(' ').map(n => n[0]).join('').toUpperCase()`. */
  function Initials(name: string): string
  {
    ToUpper(JoinFirsts(Split(name)))
  }

  /** Reference definition: the characters of `s` that start a word, that is
      non-space characters at the start or right after a space. `atStart`
      says whether the previous character was a space (or there was none). */
  function WordStarts(s: string, atStart: bool): string
  {
    if |s| == 0 then ""
    else (if s[0] != ' ' && atStart then [s[0]] else "") + WordStarts(s[1..], s[0] == ' ')
  }

  lemma {:induction false} JoinFirstsSplit(s: string)
    ensures JoinFirsts(Split(s)) == WordStarts(s, true)
    ensures JoinFirsts(Split(s)[1..]) == WordStarts(s, false)
  {
    if |s| == 0 {
    } else {
      var rest := Split(s[1..]);
      JoinFirstsSplit(s[1..]);
      if s[0] == ' ' {
        assert Split(s) == [""] + rest;
        assert Split(s)[1..] == rest;
      } else {
        var w := [s[0]] + rest[0];
        assert Split(s) == [w] + rest[1..];
        assert Split(s)[1..] == rest[1..];
        assert JoinFirsts(Split(s)) == [s[0]] + JoinFirsts(rest[1..]);
      }
    }
  }

  /** Avatar initials are exactly the upper-cased first characters of the
      space-separated words, in order; empty words contribute nothing. */
  lemma InitialsAreWordStarts(name: string)
    ensures Initials(name) == ToUpper(WordStarts(name, true))
  {
    JoinFirstsSplit(name);
  }

  lemma {:induction false} WordStartsBound(s: string, atStart: bool)
    ensures |WordStarts(s, atStart)| <= |s|
    ensures s != "" && s[0] != ' ' && atStart ==> WordStarts(s, atStart) != "" && WordStarts(s, atStart)[0] == s[0]
  {
    if |s| > 0 {
      WordStartsBound(s[1..], s[0] == ' ');
    }
  }

  /** A name that starts with a non-space character has non-empty initials
      that begin with that character, upper-cased, and never has more
      initials than characters. */
  lemma InitialsOfName(name: string)
    ensures |Initials(name)| <= |name|
    ensures name != "" && name[0] != ' ' ==> Initials(name) != "" && Initials(name)[0] == UpperChar(name[0])
  {
    InitialsAreWordStarts(name);
    WordStartsBound(name, true);
  }

  /** `s.startsWith(p)`. */
  predicate StartsWith(s: string, p: string)
  {
    |p| <= |s| && s[..|p|] == p
  }

  /** `sub` occurs in `s` starting at index `i`. */
  predicate OccursAt(s: string, sub: string, i: int)
  {
    0 <= i && i + |sub| <= |s| && s[i..i + |sub|] == sub
  }

  /** `s.includes(sub)`, by scanning from the left. */
  function Contains(s: string, sub: string): (b: bool)
    ensures b <==> exists i :: OccursAt(s, sub, i)
    decreases |s|
  {
    if StartsWith(s, sub) then
      assert OccursAt(s, sub, 0);
      true
    else if |s| == 0 then false
    else
      var b := Contains(s[1..], sub);
      if b then
        var j :| OccursAt(s[1..], sub, j);
        assert s[1..][j..j + |sub|] == s[j + 1..j + 1 + |sub|];
        assert OccursAt(s, sub, j + 1);
        true
      else
        forall i | 0 <= i <= |s| - |sub| ensures !OccursAt(s, sub, i) {
          if i > 0 {
            assert s[1..][i - 1..i - 1 + |sub|] == s[i..i + |sub|];
            assert !OccursAt(s[1..], sub, i - 1);
          }
        }
        false
  }

  /** `s.slice(-n)` for `n > 0`: at most the last `n` characters. */
  function Suffix(s: string, n: nat): (r: string)
    requires n > 0
    ensures |r| == if n < |s| then n else |s|
    ensures exists k :: 0 <= k <= |s| && s[k..] == r
  {
    if n < |s| then s[|s| - n..] else (assert s[0..] == s; s)
  }
}
