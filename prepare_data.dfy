/**
 * Cleaning of a downloaded Project Gutenberg text (`strip_gutenberg_metadata`
 * in ml-assignment/src/prepare_data.py): cut off the licence header at the
 * first listed start marker that occurs, cut off the footer at the first
 * listed end marker that occurs in what is left, and strip surrounding
 * whitespace.
 */
module PrepareData {
  import opened Text

  const StartMarkers: seq<string> := [
    "*** START OF THIS PROJECT GUTENBERG",
    "*** START OF THE PROJECT GUTENBERG",
    "*END*THE SMALL PRINT"
  ]

  const EndMarkers: seq<string> := [
    "*** END OF THIS PROJECT GUTENBERG",
    "*** END OF THE PROJECT GUTENBERG"
  ]

  /**
   * Header step: the text after the first occurrence of the first marker
   * of the list that occurs at all; the whole text when none occurs.
   */
  function AfterFirstMarker(text: string, markers: seq<string>): (r: string)
    ensures |r| <= |text| && r == text[|text| - |r|..]
  {
    if markers == [] then text
    else match Find(text, markers[0])
      case Some(pos) => text[pos + |markers[0]|..]
      case None => AfterFirstMarker(text, markers[1..])
  }

  /**
   * Footer step: the text before the first occurrence of the first marker
   * of the list that occurs at all; the whole text when none occurs.
   */
  function BeforeFirstMarker(text: string, markers: seq<string>): (r: string)
    ensures |r| <= |text| && r == text[..|r|]
  {
    if markers == [] then text
    else match Find(text, markers[0])
      case Some(pos) => text[..pos]
      case None => BeforeFirstMarker(text, markers[1..])
  }

  /** The header step on the markers from index `i` on tries `markers[i]` first. */
  lemma AfterFirstMarkerFrom(text: string, markers: seq<string>, i: nat)
    requires i < |markers|
    ensures AfterFirstMarker(text, markers[i..]) ==
      match Find(text, markers[i])
        case Some(pos) => text[pos + |markers[i]|..]
        case None => AfterFirstMarker(text, markers[i + 1..])
  {
    assert markers[i..][1..] == markers[i + 1..];
  }

  /** The footer step on the markers from index `i` on tries `markers[i]` first. */
  lemma BeforeFirstMarkerFrom(text: string, markers: seq<string>, i: nat)
    requires i < |markers|
    ensures BeforeFirstMarker(text, markers[i..]) ==
      match Find(text, markers[i])
        case Some(pos) => text[..pos]
        case None => BeforeFirstMarker(text, markers[i + 1..])
  {
    assert markers[i..][1..] == markers[i + 1..];
  }

  /** Cleaning with the given start and end marker lists. */
  function StripWith(text: string, starts: seq<string>, ends: seq<string>): string
  {
    Trim(BeforeFirstMarker(AfterFirstMarker(text, starts), ends))
  }

  /** What `strip_gutenberg_metadata` returns. */
  function Stripped(text: string): string
  {
    StripWith(text, StartMarkers, EndMarkers)
  }

  /** The marker `markers[k]` occurs in `text` and none listed before it does. */
  predicate FirstListedMatch(text: string, markers: seq<string>, k: nat)
  {
    && k < |markers|
    && Find(text, markers[k]).Some?
    && forall j :: 0 <= j < k ==> Find(text, markers[j]).None?
  }

  /**
   * The header step uses the first listed marker that occurs, at its first
   * occurrence; markers listed after it are not consulted.
   */
  lemma {:induction false} HeaderCutAtFirstListedMarker(text: string, markers: seq<string>, k: nat)
    requires FirstListedMatch(text, markers, k)
    ensures AfterFirstMarker(text, markers) == text[Find(text, markers[k]).value + |markers[k]|..]
    decreases k
  {
    if k > 0 {
      assert Find(text, markers[0]).None?;
      assert FirstListedMatch(text, markers[1..], k - 1) by {
        forall j | 0 <= j < k - 1 ensures Find(text, markers[1..][j]).None? {
          assert markers[1..][j] == markers[j + 1];
        }
      }
      HeaderCutAtFirstListedMarker(text, markers[1..], k - 1);
    }
  }

  /**
   * The footer step uses the first listed marker that occurs, at its first
   * occurrence; markers listed after it are not consulted.
   */
  lemma {:induction false} FooterCutAtFirstListedMarker(text: string, markers: seq<string>, k: nat)
    requires FirstListedMatch(text, markers, k)
    ensures BeforeFirstMarker(text, markers) == text[..Find(text, markers[k]).value]
    decreases k
  {
    if k > 0 {
      assert Find(text, markers[0]).None?;
      assert FirstListedMatch(text, markers[1..], k - 1) by {
        forall j | 0 <= j < k - 1 ensures Find(text, markers[1..][j]).None? {
          assert markers[1..][j] == markers[j + 1];
        }
      }
      FooterCutAtFirstListedMarker(text, markers[1..], k - 1);
    }
  }

  /** When no marker of the list occurs, both steps leave the text as it is. */
  lemma {:induction false} NoMarkerNoCut(text: string, markers: seq<string>)
    requires forall m :: m in markers ==> Find(text, m).None?
    ensures AfterFirstMarker(text, markers) == text
    ensures BeforeFirstMarker(text, markers) == text
  {
    if markers != [] {
      assert markers[0] in markers;
      NoMarkerNoCut(text, markers[1..]);
    }
  }

  /** With no marker anywhere in the input, the result is the input stripped. */
  lemma StrippedWithoutMarkers(text: string)
    requires forall m :: m in StartMarkers + EndMarkers ==> Find(text, m).None?
    ensures Stripped(text) == Trim(text)
  {
    NoMarkerNoCut(text, StartMarkers);
    NoMarkerNoCut(text, EndMarkers);
  }

  /** A piece of a piece of `s` is a piece of `s`. */
  lemma SliceOfSlice(s: string, i: nat, j: nat, k: nat, l: nat)
    requires i <= j <= |s| && k <= l <= j - i
    ensures s[i..j][k..l] == s[i + k..i + l]
  {
    forall q | 0 <= q < l - k ensures s[i..j][k..l][q] == s[i + k..i + l][q] {
    }
  }

  /** A piece of a prefix of a suffix of `text` is a piece of `text`. */
  lemma PieceOfPiece(text: string, a: string, b: string, r: string, i: nat)
    requires |a| <= |text| && a == text[|text| - |a|..]
    requires |b| <= |a| && b == a[..|b|]
    requires i + |r| <= |b| && r == b[i..i + |r|]
    ensures exists lo, hi :: 0 <= lo <= hi <= |text| && r == text[lo..hi]
  {
    var off := |text| - |a|;
    SliceOfSlice(text, off, |text|, 0, |b|);
    SliceOfSlice(text, off, off + |b|, i, i + |r|);
    assert r == text[off + i..off + i + |r|];
  }

  /** The cleaned text is one contiguous piece of the input. */
  lemma StripWithIsSubstring(text: string, starts: seq<string>, ends: seq<string>)
    ensures exists i, j :: 0 <= i <= j <= |text| && StripWith(text, starts, ends) == text[i..j]
  {
    var a := AfterFirstMarker(text, starts);
    var b := BeforeFirstMarker(a, ends);
    var i := TrimOffset(b);
    PieceOfPiece(text, a, b, Trim(b), i);
  }

  /**
   * The result is one contiguous piece of the input, and neither of its
   * ends is whitespace.
   */
  lemma StrippedIsTrimmedSubstring(text: string)
    ensures exists i, j :: 0 <= i <= j <= |text| && Stripped(text) == text[i..j]
    ensures var r := Stripped(text); r == [] || (!IsSpace(r[0]) && !IsSpace(r[|r| - 1]))
  {
    StripWithIsSubstring(text, StartMarkers, EndMarkers);
  }

  /** A marker does not occur in any piece cut out before its first occurrence. */
  lemma NoMarkerBeforeFirstOccurrence(s: string, t: string, m: string, i: nat)
    requires |m| > 0
    requires Find(s, m).Some?
    requires i + |t| <= Find(s, m).value
    requires t == s[i..i + |t|]
    ensures forall j: nat :: !OccursAt(t, m, j)
  {
    forall j: nat | OccursAt(t, m, j)
      ensures false
    {
      SliceOfSlice(s, i, i + |t|, j, j + |m|);
      assert OccursAt(s, m, i + j);
    }
  }

  /**
   * When the footer step cuts at the end marker `ends[k]`, that marker does
   * not occur anywhere in the result.
   */
  lemma CutEndMarkerAbsent(text: string, starts: seq<string>, ends: seq<string>, k: nat)
    requires FirstListedMatch(AfterFirstMarker(text, starts), ends, k)
    requires |ends[k]| > 0
    ensures Find(StripWith(text, starts, ends), ends[k]).None?
  {
    var a := AfterFirstMarker(text, starts);
    var m := ends[k];
    var pos := Find(a, m).value;
    FooterCutAtFirstListedMarker(a, ends, k);
    var b := BeforeFirstMarker(a, ends);
    var r := Trim(b);
    var i := TrimOffset(b);
    assert r == a[i..i + |r|];
    NoMarkerBeforeFirstOccurrence(a, r, m, i);
  }

  /**
   * When the footer step cuts at an end marker, that marker does not occur
   * anywhere in the result.
   */
  lemma AppliedEndMarkerAbsent(text: string, k: nat)
    requires FirstListedMatch(AfterFirstMarker(text, StartMarkers), EndMarkers, k)
    ensures Find(Stripped(text), EndMarkers[k]).None?
  {
    assert |EndMarkers[k]| > 0;
    CutEndMarkerAbsent(text, StartMarkers, EndMarkers, k);
  }

  /**
   * `strip_gutenberg_metadata`: scans the start markers in list order and
   * cuts at the first that occurs, then does the same with the end markers
   * on what is left, and finally strips surrounding whitespace.
   */
  method StripGutenbergMetadata(text: string) returns (r: string)
    ensures r == Stripped(text)
  {
    r := text;
    var i := 0;
    while i < |StartMarkers|
      invariant 0 <= i <= |StartMarkers|
      invariant r == text
      invariant AfterFirstMarker(text, StartMarkers) == AfterFirstMarker(text, StartMarkers[i..])
    {
      var marker := StartMarkers[i];
      var pos := Find(r, marker);
      AfterFirstMarkerFrom(text, StartMarkers, i);
      if pos.Some? {
        r := r[pos.value + |marker|..];
        break;
      }
      i := i + 1;
    }
    assert r == AfterFirstMarker(text, StartMarkers);
    ghost var header := r;
    i := 0;
    while i < |EndMarkers|
      invariant 0 <= i <= |EndMarkers|
      invariant r == header
      invariant BeforeFirstMarker(header, EndMarkers) == BeforeFirstMarker(header, EndMarkers[i..])
    {
      var marker := EndMarkers[i];
      var pos := Find(r, marker);
      BeforeFirstMarkerFrom(header, EndMarkers, i);
      if pos.Some? {
        r := r[..pos.value];
        break;
      }
      i := i + 1;
    }
    assert r == BeforeFirstMarker(header, EndMarkers);
    r := Trim(r);
  }
}
