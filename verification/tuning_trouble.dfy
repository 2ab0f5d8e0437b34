/**
 * Tuning trouble: find where the first run of K pairwise-different characters of a
 * datastream ends (K = 4 for the start-of-packet marker, K = 14 for the message).
 */
module TuningTrouble {

  /** No character occurs twice in the window. */
  predicate Distinct(w: string)
  {
    forall i, j :: 0 <= i < j < |w| ==> w[i] != w[j]
  }

  /** The k characters that end at position e of s (exclusive) are pairwise different. */
  predicate MarkerAt(s: string, k: int, e: int)
  {
    0 < k <= e <= |s| && Distinct(s[e - k..e])
  }

  /** Reference search: the first end e >= from of a distinct window of length k, or |s| if none. */
  function SearchFrom(s: string, k: int, from: int): int
    requires 1 <= k <= from
    decreases |s| - from
  {
    if from >= |s| then |s|
    else if MarkerAt(s, k, from) then from
    else SearchFrom(s, k, from + 1)
  }

  /**
   * The number of characters read until the first window of k pairwise-different
   * characters is complete; |s| when there is no such window, and 0 when k <= 0.
   */
  function FirstMarker(s: string, k: int): int
  {
    if k <= 0 then 0 else SearchFrom(s, k, k)
  }

  lemma {:induction false} SearchFromSpec(s: string, k: int, from: int)
    requires 1 <= k <= from
    ensures SearchFrom(s, k, from) <= |s|
    ensures from <= |s| ==> from <= SearchFrom(s, k, from)
    ensures SearchFrom(s, k, from) < |s| ==> MarkerAt(s, k, SearchFrom(s, k, from))
    ensures forall e :: from <= e < SearchFrom(s, k, from) ==> !MarkerAt(s, k, e)
    decreases |s| - from
  {
    if from < |s| && !MarkerAt(s, k, from) {
      SearchFromSpec(s, k, from + 1);
    }
  }

  /** What FirstMarker means: a bounded result, a distinct window ending there, and none earlier. */
  lemma FirstMarkerSpec(s: string, k: int)
    ensures 0 <= FirstMarker(s, k) <= |s|
    ensures k <= 0 ==> FirstMarker(s, k) == 0
    ensures forall e :: e < FirstMarker(s, k) ==> !MarkerAt(s, k, e)
    ensures k > 0 && FirstMarker(s, k) < |s| ==> MarkerAt(s, k, FirstMarker(s, k))
    ensures (exists e :: MarkerAt(s, k, e)) ==> MarkerAt(s, k, FirstMarker(s, k))
    ensures k > 0 && (forall e :: !MarkerAt(s, k, e)) ==> FirstMarker(s, k) == |s|
  {
    if k > 0 {
      SearchFromSpec(s, k, k);
    }
  }

  /** The properties of FirstMarkerSpec pin the result down: nothing else has them. */
  lemma MarkerUnique(s: string, k: int, r: int)
    requires 0 <= r <= |s|
    requires k <= 0 ==> r == 0
    requires forall e :: e < r ==> !MarkerAt(s, k, e)
    requires k > 0 && r < |s| ==> MarkerAt(s, k, r)
    ensures r == FirstMarker(s, k)
  {
    FirstMarkerSpec(s, k);
  }

  /**
   * A repeat at `seen` and `p` of a run that began at `start` and is shorter than k: every
   * window of k that ends from start + k on and still holds `seen` holds the repeat too.
   */
  lemma RepeatBlocks(s: string, k: int, start: int, seen: int, p: int)
    requires 0 <= start <= seen < p < |s| && s[seen] == s[p] && p - start < k
    ensures forall e :: start + k <= e < seen + 1 + k ==> !MarkerAt(s, k, e)
  {
    forall e | start + k <= e < seen + 1 + k
      ensures !MarkerAt(s, k, e)
    {
      if e <= |s| {
        Repeated(s, e - k, e, seen, p);
      }
    }
  }

  /** A run whose characters a record maps back to their positions holds no character twice. */
  lemma RecordedRunDistinct(s: string, start: int, p: int, cells: map<char, int>)
    requires 0 <= start <= p <= |s|
    requires forall i :: start <= i < p ==> s[i] in cells && cells[s[i]] == i
    ensures Distinct(s[start..p])
  {
    var window := s[start..p];
    forall i, j | 0 <= i < j < |window| ensures window[i] != window[j] {
      assert cells[s[start + i]] == start + i;
      assert cells[s[start + j]] == start + j;
    }
  }

  /**
   * `findDistinctChars`: read forward, remembering where each character of the current
   * run was seen; on a repeat, restart just after the earlier occurrence with an empty
   * record. Stops when the record holds `distinctCount` characters or the input ends.
   */
  method FindDistinctChars(inputs: string, distinctCount: int) returns (pointer: int)
    ensures 0 <= pointer <= |inputs|
    ensures distinctCount <= 0 ==> pointer == 0
    ensures distinctCount > 0 && pointer < |inputs| ==> MarkerAt(inputs, distinctCount, pointer)
    ensures forall e :: e < pointer ==> !MarkerAt(inputs, distinctCount, e)
    ensures pointer == FirstMarker(inputs, distinctCount)
  {
    pointer := 0;
    var cells: map<char, int> := map[];
    // The position where the current run of recorded characters begins.
    ghost var scanStart := 0;
    while pointer < |inputs|
      invariant 0 <= scanStart <= pointer <= |inputs|
      invariant |cells| == pointer - scanStart
      invariant forall c :: c in cells ==> scanStart <= cells[c] < pointer && inputs[cells[c]] == c
      invariant forall i :: scanStart <= i < pointer ==> inputs[i] in cells && cells[inputs[i]] == i
      invariant distinctCount <= 0 ==> pointer == 0
      invariant distinctCount > 0 ==> pointer - scanStart <= distinctCount
      invariant forall e :: e < scanStart + distinctCount ==> !MarkerAt(inputs, distinctCount, e)
      decreases |inputs| - scanStart, |inputs| - pointer
    {
      if |cells| >= distinctCount {
        break;
      }
      var c := inputs[pointer];
      if c in cells {
        RepeatBlocks(inputs, distinctCount, scanStart, cells[c], pointer);
        pointer := cells[c] + 1;
        cells := map[];
        scanStart := pointer;
      } else {
        cells := cells[c := pointer];
        pointer := pointer + 1;
      }
    }
    if distinctCount > 0 && pointer < |inputs| {
      RecordedRunDistinct(inputs, scanStart, pointer, cells);
    }
    MarkerUnique(inputs, distinctCount, pointer);
  }

  /** `calculateMarker`: the start-of-packet (4) and start-of-message (14) positions. */
  method CalculateMarker(inputs: string) returns (markerStartPoint: int, messageStartPoint: int)
    ensures markerStartPoint == FirstMarker(inputs, 4)
    ensures messageStartPoint == FirstMarker(inputs, 14)
    ensures 0 <= markerStartPoint <= |inputs| && 0 <= messageStartPoint <= |inputs|
  {
    markerStartPoint := FindDistinctChars(inputs, 4);
    messageStartPoint := FindDistinctChars(inputs, 14);
  }

  /** A window that holds a character twice is no marker. */
  lemma Repeated(s: string, lo: nat, hi: nat, i: nat, j: nat)
    requires lo <= i < j < hi <= |s| && s[i] == s[j]
    ensures !MarkerAt(s, hi - lo, hi)
  {
    assert s[lo..hi][i - lo] == s[lo..hi][j - lo];
  }

  /** The first sample stream: the start-of-packet marker is complete after 7 characters. */
  lemma SampleOneMarker(s: string)
    requires s == "mjqjpqmgbljsphdztnvjfqwrcgsmlb"
    ensures FirstMarker(s, 4) == 7
  {
    assert s[0] == 'm';
    assert s[1] == 'j';
    assert s[2] == 'q';
    assert s[3] == 'j';
    assert s[4] == 'p';
    assert s[5] == 'q';
    assert s[6] == 'm';
    forall e | e < 7 ensures !MarkerAt(s, 4, e) {
      if e == 4 { Repeated(s, 0, 4, 1, 3); }
      else if e == 5 { Repeated(s, 1, 5, 1, 3); }
      else if e == 6 { Repeated(s, 2, 6, 2, 5); }
    }
    assert s[3..7] == [s[3], s[4], s[5], s[6]];
    assert MarkerAt(s, 4, 7);
    MarkerUnique(s, 4, 7);
  }

  /** The first sample stream: the start-of-message marker is complete after 19 characters. */
  lemma SampleOneMessage(s: string)
    requires s == "mjqjpqmgbljsphdztnvjfqwrcgsmlb"
    ensures FirstMarker(s, 14) == 19
  {
    SampleOneMessageWindow(s);
    forall e | e < 19 ensures !MarkerAt(s, 14, e) {
      SampleOneMessageEarlier(s, e);
    }
    MarkerUnique(s, 14, 19);
  }

  lemma SampleOneMessageEarlier(s: string, e: int)
    requires s == "mjqjpqmgbljsphdztnvjfqwrcgsmlb"
    requires e < 19
    ensures !MarkerAt(s, 14, e)
  {
    if e == 14 {
      assert s[0] == 'm';
      assert s[6] == 'm';
      Repeated(s, 0, 14, 0, 6);
    } else if e == 15 {
      assert s[1] == 'j';
      assert s[3] == 'j';
      Repeated(s, 1, 15, 1, 3);
    } else if e == 16 {
      assert s[2] == 'q';
      assert s[5] == 'q';
      Repeated(s, 2, 16, 2, 5);
    } else if e == 17 {
      assert s[3] == 'j';
      assert s[10] == 'j';
      Repeated(s, 3, 17, 3, 10);
    } else if e == 18 {
      assert s[4] == 'p';
      assert s[12] == 'p';
      Repeated(s, 4, 18, 4, 12);
    }
  }

  lemma SampleOneMessageWindow(s: string)
    requires s == "mjqjpqmgbljsphdztnvjfqwrcgsmlb"
    ensures MarkerAt(s, 14, 19)
  {
    assert s[5] == 'q';
    assert s[6] == 'm';
    assert s[7] == 'g';
    assert s[8] == 'b';
    assert s[9] == 'l';
    assert s[10] == 'j';
    assert s[11] == 's';
    assert s[12] == 'p';
    assert s[13] == 'h';
    assert s[14] == 'd';
    assert s[15] == 'z';
    assert s[16] == 't';
    assert s[17] == 'n';
    assert s[18] == 'v';
    assert s[5..19] == "qmgbljsphdztnv";
  }

  /** The second sample stream: the start-of-packet marker is complete after 5 characters. */
  lemma SampleTwoMarker(s: string)
    requires s == "bvwbjplbgvbhsrlpgdmjqwftvncz"
    ensures FirstMarker(s, 4) == 5
  {
    assert s[0] == 'b';
    assert s[1] == 'v';
    assert s[2] == 'w';
    assert s[3] == 'b';
    assert s[4] == 'j';
    forall e | e < 5 ensures !MarkerAt(s, 4, e) {
      if e == 4 { Repeated(s, 0, 4, 0, 3); }
    }
    assert s[1..5] == [s[1], s[2], s[3], s[4]];
    assert MarkerAt(s, 4, 5);
    MarkerUnique(s, 4, 5);
  }
}
