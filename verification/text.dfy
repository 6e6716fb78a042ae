/**
 * String operations the services use from .NET: `Trim`, `ToLowerInvariant`,
 * `Contains`, `Split(char)`, `string.IsNullOrWhiteSpace` and integer
 * formatting. Case folding and white space are ASCII only.
 */
module Text {

  /** `char.IsWhiteSpace` restricted to ASCII: space, tab, line feed, vertical tab, form feed, carriage return. */
  predicate IsWhiteSpace(c: char) {
    c == ' ' || '\t' <= c <= '\r'
  }

  /** `string.IsNullOrWhiteSpace` (a string value is never null here). */
  predicate IsBlank(s: string) {
    forall i :: 0 <= i < |s| ==> IsWhiteSpace(s[i])
  }

  function ToLowerChar(c: char): char {
    if 'A' <= c <= 'Z' then (c as int + 32) as char else c
  }

  /** Lower-casing a character keeps it white space or not. */
  lemma LowerCharWhiteSpace(c: char)
    ensures IsWhiteSpace(ToLowerChar(c)) == IsWhiteSpace(c)
  {
  }

  predicate IsLower(s: string) {
    forall i :: 0 <= i < |s| ==> !('A' <= s[i] <= 'Z')
  }

  /** `ToLowerInvariant` on ASCII letters. */
  function ToLower(s: string): (r: string)
    ensures |r| == |s|
    ensures forall i :: 0 <= i < |s| ==> r[i] == ToLowerChar(s[i])
  {
    seq(|s|, i requires 0 <= i < |s| => ToLowerChar(s[i]))
  }

  lemma LowerIsLower(s: string)
    ensures IsLower(ToLower(s))
  {
  }

  /** Lower-casing keeps the first and last characters white space or not. */
  lemma LowerEnds(s: string)
    requires s != []
    ensures IsWhiteSpace(ToLower(s)[0]) == IsWhiteSpace(s[0])
    ensures IsWhiteSpace(ToLower(s)[|s| - 1]) == IsWhiteSpace(s[|s| - 1])
  {
    LowerCharWhiteSpace(s[0]);
    LowerCharWhiteSpace(s[|s| - 1]);
  }

  /** Lower-casing twice is lower-casing once. */
  lemma LowerIdempotent(s: string)
    ensures ToLower(ToLower(s)) == ToLower(s)
  {
  }

  /**
   * `Trim`: drops white space from both ends, leaving the longest infix that
   * neither starts nor ends with white space.
   */
  function Trim(s: string): (r: string)
    ensures |r| <= |s|
    ensures r == [] || (!IsWhiteSpace(r[0]) && !IsWhiteSpace(r[|r| - 1]))
    ensures r == [] <==> IsBlank(s)
    decreases |s|
  {
    if s == [] then []
    else if IsWhiteSpace(s[0]) then
      assert IsBlank(s) <==> IsBlank(s[1..]) by {
        if IsBlank(s[1..]) {
          forall j | 0 < j < |s| ensures IsWhiteSpace(s[j]) { assert s[j] == s[1..][j - 1]; }
        }
      }
      Trim(s[1..])
    else if IsWhiteSpace(s[|s| - 1]) then
      assert s[..|s| - 1][0] == s[0];
      Trim(s[..|s| - 1])
    else s
  }

  /** Trimming only removes characters. */
  lemma {:induction false} TrimKeepsCharacters(s: string)
    ensures forall c :: c in Trim(s) ==> c in s
    decreases |s|
  {
    if s != [] {
      if IsWhiteSpace(s[0]) {
        TrimKeepsCharacters(s[1..]);
      } else if IsWhiteSpace(s[|s| - 1]) {
        TrimKeepsCharacters(s[..|s| - 1]);
      }
    }
  }

  /** `t` occurs in `s` starting at index `i`. */
  predicate OccursAt(s: string, t: string, i: int) {
    0 <= i && i + |t| <= |s| && s[i..i + |t|] == t
  }

  /** `s.Contains(t)` (ordinal): `t` occurs in `s` at some position. */
  predicate Contains(s: string, t: string) {
    exists i :: 0 <= i <= |s| - |t| && OccursAt(s, t, i)
  }

  /** Every string contains itself (an exact match is also a substring match). */
  lemma ContainsSelf(s: string)
    ensures Contains(s, s)
  {
    assert OccursAt(s, s, 0);
  }

  /** `s.Split(sep)`: the pieces between separators, empty pieces included. */
  function Split(s: string, sep: char): (r: seq<string>)
    ensures |r| >= 1
    ensures forall k :: 0 <= k < |r| ==> sep !in r[k]
    decreases |s|
  {
    if s == [] then [""]
    else
      var rest := Split(s[1..], sep);
      if s[0] == sep then [""] + rest
      else [[s[0]] + rest[0]] + rest[1..]
  }

  /** `string.Join(sep, pieces)`. */
  function Join(pieces: seq<string>, sep: char): string
    requires |pieces| >= 1
  {
    if |pieces| == 1 then pieces[0] else pieces[0] + [sep] + Join(pieces[1..], sep)
  }

  /** Splitting loses nothing: joining the pieces back gives the original string. */
  lemma {:induction false} JoinSplit(s: string, sep: char)
    ensures Join(Split(s, sep), sep) == s
    decreases |s|
  {
    if s != [] {
      JoinSplit(s[1..], sep);
      var rest := Split(s[1..], sep);
      if s[0] == sep {
        assert Split(s, sep) == [""] + rest;
        assert ([""] + rest)[1..] == rest;
      } else {
        var r := Split(s, sep);
        assert r == [[s[0]] + rest[0]] + rest[1..];
        if |rest| == 1 {
          assert rest == [rest[0]];
        } else {
          assert r[1..] == rest[1..];
        }
      }
    }
  }

  /** Every piece of a blank string is blank. */
  lemma {:induction false} SplitBlank(s: string, sep: char)
    requires IsBlank(s)
    ensures forall k :: 0 <= k < |Split(s, sep)| ==> IsBlank(Split(s, sep)[k])
    decreases |s|
  {
    if s != [] {
      var rest := Split(s[1..], sep);
      assert IsBlank(s[1..]) by {
        forall j | 0 <= j < |s| - 1 ensures IsWhiteSpace(s[1..][j]) { assert s[1..][j] == s[j + 1]; }
      }
      SplitBlank(s[1..], sep);
      if s[0] != sep {
        var head := [s[0]] + rest[0];
        assert IsBlank(head) by {
          forall j | 0 <= j < |head| ensures IsWhiteSpace(head[j]) {
            if j > 0 { assert head[j] == rest[0][j - 1]; }
          }
        }
      }
    }
  }
}
