/**
 * The string primitives the trigram model and the corpus cleaner rely on:
 * whitespace, lower-casing, whitespace splitting and joining, trimming and
 * substring search.  Whitespace is Python's `str.isspace` restricted to
 * ASCII, and lower-casing maps only the letters A-Z.
 */
module Text {

  datatype Option<T> = None | Some(value: T)

  /** ASCII whitespace as `str.split()` and `str.strip()` see it: 9..13 and 28..32. */
  predicate IsSpace(c: char)
  {
    (9 <= c as int <= 13) || (28 <= c as int <= 32)
  }

  function ToLower(c: char): (r: char)
    ensures IsSpace(r) == IsSpace(c)
    ensures !('A' <= r <= 'Z')
  {
    if 'A' <= c <= 'Z' then (c as int + 32) as char else c
  }

  /** `s.lower()`, restricted to ASCII letters. */
  function Lower(s: string): (r: string)
    ensures |r| == |s|
    ensures forall i :: 0 <= i < |s| ==> r[i] == ToLower(s[i])
  {
    seq(|s|, i requires 0 <= i < |s| => ToLower(s[i]))
  }

  /** A token as `str.split()` produces it: non-empty and free of whitespace. */
  predicate IsWord(w: string)
  {
    |w| > 0 && forall i :: 0 <= i < |w| ==> !IsSpace(w[i])
  }

  predicate AllSpace(s: string)
  {
    forall i :: 0 <= i < |s| ==> IsSpace(s[i])
  }

  /** The length of the run of non-whitespace characters that starts `s`. */
  function WordLength(s: string): (n: nat)
    ensures n <= |s|
    ensures forall i :: 0 <= i < n ==> !IsSpace(s[i])
    ensures n == |s| || IsSpace(s[n])
  {
    if s == [] || IsSpace(s[0]) then 0 else 1 + WordLength(s[1..])
  }

  /** `s.split()`: the maximal runs of non-whitespace characters, in order. */
  function Split(s: string): (words: seq<string>)
    ensures forall w :: w in words ==> IsWord(w)
    decreases |s|
  {
    if s == [] then []
    else if IsSpace(s[0]) then Split(s[1..])
    else
      var n := WordLength(s);
      [s[..n]] + Split(s[n..])
  }

  /** `" ".join(words)`. */
  function Join(words: seq<string>): string
  {
    if words == [] then ""
    else if |words| == 1 then words[0]
    else words[0] + " " + Join(words[1..])
  }

  /** Splitting yields no token exactly when the text is all whitespace. */
  lemma {:induction false} SplitEmpty(s: string)
    ensures Split(s) == [] <==> AllSpace(s)
    decreases |s|
  {
    if s != [] {
      if IsSpace(s[0]) {
        SplitEmpty(s[1..]);
        assert AllSpace(s) <==> AllSpace(s[1..]) by {
          if AllSpace(s[1..]) {
            forall i | 0 <= i < |s| ensures IsSpace(s[i]) {
              if i > 0 { assert s[i] == s[1..][i - 1]; }
            }
          }
        }
      } else {
        assert !AllSpace(s);
      }
    }
  }

  lemma {:induction false} WordLengthOfWord(w: string, rest: string)
    requires IsWord(w)
    requires rest == [] || IsSpace(rest[0])
    ensures WordLength(w + rest) == |w|
    decreases |w|
  {
    assert (w + rest)[1..] == w[1..] + rest;
    if |w| > 1 {
      WordLengthOfWord(w[1..], rest);
    }
  }

  /** Joining words with single spaces and splitting again gives the words back. */
  lemma {:induction false} SplitJoin(words: seq<string>)
    requires forall w :: w in words ==> IsWord(w)
    ensures Split(Join(words)) == words
  {
    if words == [] {
    } else {
      var w := words[0];
      var rest: string := if |words| == 1 then [] else " " + Join(words[1..]);
      assert Join(words) == w + rest;
      WordLengthOfWord(w, rest);
      assert (w + rest)[..|w|] == w;
      assert (w + rest)[|w|..] == rest;
      if |words| == 1 {
        assert words == [w];
      } else {
        SplitJoin(words[1..]);
        assert Split(rest) == Split(Join(words[1..])) by {
          assert rest[1..] == Join(words[1..]);
        }
        assert words == [w] + words[1..];
      }
    }
  }

  /** `s.lstrip()`. */
  function TrimStart(s: string): (r: string)
    ensures |r| <= |s|
    ensures r == [] || !IsSpace(r[0])
  {
    if s != [] && IsSpace(s[0]) then TrimStart(s[1..]) else s
  }

  /** `s.rstrip()`. */
  function TrimEnd(s: string): (r: string)
    ensures |r| <= |s|
    ensures r == [] || !IsSpace(r[|r| - 1])
    ensures r != [] ==> r[0] == s[0]
  {
    if s != [] && IsSpace(s[|s| - 1]) then TrimEnd(s[..|s| - 1]) else s
  }

  /** `s.strip()`: neither end of the result is whitespace. */
  function Trim(s: string): (r: string)
    ensures r == [] || (!IsSpace(r[0]) && !IsSpace(r[|r| - 1]))
  {
    TrimEnd(TrimStart(s))
  }

  /** `TrimStart` removes a leading run of whitespace and keeps the rest as it is. */
  lemma {:induction false} TrimStartCut(s: string) returns (i: nat)
    ensures i <= |s| && TrimStart(s) == s[i..] && AllSpace(s[..i])
    decreases |s|
  {
    if s != [] && IsSpace(s[0]) {
      var j := TrimStartCut(s[1..]);
      i := j + 1;
      assert s[1..][j..] == s[i..];
      assert s[..i] == [s[0]] + s[1..][..j];
    } else {
      i := 0;
    }
  }

  /** `TrimEnd` removes a trailing run of whitespace and keeps the rest as it is. */
  lemma {:induction false} TrimEndCut(s: string) returns (j: nat)
    ensures j <= |s| && TrimEnd(s) == s[..j] && AllSpace(s[j..])
    decreases |s|
  {
    if s != [] && IsSpace(s[|s| - 1]) {
      j := TrimEndCut(s[..|s| - 1]);
      assert s[..|s| - 1][..j] == s[..j];
      assert s[j..] == s[..|s| - 1][j..] + [s[|s| - 1]];
    } else {
      j := |s|;
    }
  }

  /** Where in `s` its stripped form starts. */
  lemma TrimOffset(s: string) returns (i: nat)
    ensures i + |Trim(s)| <= |s| && Trim(s) == s[i..i + |Trim(s)|]
  {
    i := TrimStartCut(s);
    var j := TrimEndCut(s[i..]);
    assert s[i..][..j] == s[i..i + j];
  }

  /**
   * The stripped text is the part of `s` left between a leading and a
   * trailing run of whitespace.
   */
  lemma TrimIsPiece(s: string) returns (i: nat)
    ensures var r := Trim(s);
      && i + |r| <= |s|
      && r == s[i..i + |r|]
      && AllSpace(s[..i])
      && AllSpace(s[i + |r|..])
  {
    i := TrimStartCut(s);
    var j := TrimEndCut(s[i..]);
    assert s[i..][..j] == s[i..i + j];
    assert s[i..][j..] == s[i + j..];
  }

  /** `m` occurs in `s` starting at index `i`. */
  predicate OccursAt(s: string, m: string, i: nat)
  {
    i + |m| <= |s| && s[i..i + |m|] == m
  }

  /** The first index at or after `from` where `m` occurs in `s`. */
  function FindFrom(s: string, m: string, from: nat): (r: Option<nat>)
    ensures r.Some? ==> from <= r.value && OccursAt(s, m, r.value)
    ensures r.Some? ==> forall j :: from <= j < r.value ==> !OccursAt(s, m, j)
    ensures r.None? ==> forall j :: from <= j ==> !OccursAt(s, m, j)
    decreases |s| - from
  {
    if from + |m| > |s| then None
    else if s[from..from + |m|] == m then Some(from)
    else FindFrom(s, m, from + 1)
  }

  /** The first occurrence of `m` in `s`: `m in s` is `Find(s, m).Some?`. */
  function Find(s: string, m: string): (r: Option<nat>)
    ensures r.Some? ==> OccursAt(s, m, r.value)
    ensures r.Some? ==> forall j :: 0 <= j < r.value ==> !OccursAt(s, m, j)
    ensures r.None? ==> forall j: nat :: !OccursAt(s, m, j)
  {
    FindFrom(s, m, 0)
  }
}
