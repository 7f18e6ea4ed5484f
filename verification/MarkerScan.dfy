/**
 Looking for forbidden markers in a file that is read chunk by chunk: each window starts with the
 last bytes of the one before, one fewer than the longest marker.
 */
module MarkerScan {
  import opened Common

  type Bytes = seq<bv8>

  function Concat(chunks: seq<Bytes>): Bytes {
    if chunks == [] then [] else Concat(chunks[..|chunks| - 1]) + chunks[|chunks| - 1]
  }

  function Last(bytes: Bytes, n: nat): (last: Bytes)
    ensures |last| == if n <= |bytes| then n else |bytes|
    ensures last == bytes[|bytes| - |last|..]
  {
    if n <= |bytes| then bytes[|bytes| - n..] else bytes
  }

  /** The markers of a whole file; an empty marker is in any file that is not empty. */
  predicate Holds(file: Bytes, marker: Bytes) {
    Occurs(marker, file) && (marker == [] ==> file != [])
  }

  lemma StandsByByte(marker: Bytes, bytes: Bytes, i: nat)
    ensures StandsAt(marker, bytes, i) <==>
      i + |marker| <= |bytes| && forall k | 0 <= k < |marker| :: marker[k] == bytes[i + k]
  {
    if i + |marker| <= |bytes| {
      var part := bytes[i..i + |marker|];
      assert forall k | 0 <= k < |marker| :: part[k] == bytes[i + k];
    }
  }

  /** An occurrence inside one part of a file is an occurrence in that part, and the other way round. */
  lemma StandsInPart(marker: Bytes, bytes: Bytes, from: nat, to: nat, i: nat)
    requires from <= to <= |bytes|
    ensures StandsAt(marker, bytes[from..to], i) <==> from + i + |marker| <= to && StandsAt(marker, bytes, from + i)
  {
    StandsByByte(marker, bytes[from..to], i);
    StandsByByte(marker, bytes, from + i);
    assert forall k | 0 <= k < to - from :: bytes[from..to][k] == bytes[from + k];
  }

  lemma PartHolds(marker: Bytes, bytes: Bytes, from: nat, to: nat)
    requires from <= to <= |bytes| && Holds(bytes[from..to], marker)
    ensures Holds(bytes, marker)
  {
    var i :| 0 <= i <= to - from && StandsAt(marker, bytes[from..to], i);
    StandsInPart(marker, bytes, from, to, i);
  }

  lemma OneOfThem(marker: Bytes, whole: Bytes, from: nat, mid: nat)
    requires from <= mid < |whole| && (from == 0 || |marker| <= mid - from + 1) && Holds(whole, marker)
    ensures Holds(whole[..mid], marker) || Holds(whole[from..], marker)
  {
    var i :| 0 <= i <= |whole| && StandsAt(marker, whole, i);
    assert whole[..mid] == whole[0..mid] && whole[from..] == whole[from..|whole|];
    if i + |marker| <= mid && mid > 0 {
      StandsInPart(marker, whole, 0, mid, i);
    } else {
      StandsInPart(marker, whole, from, |whole|, i - from);
    }
  }

  /** A marker of the whole is in what was read before, or in the window that overlaps it enough. */
  lemma WindowSuffices(marker: Bytes, before: Bytes, chunk: Bytes, keep: nat)
    requires |marker| <= keep + 1 && chunk != []
    ensures Holds(before + chunk, marker) <==> Holds(before, marker) || Holds(Last(before, keep) + chunk, marker)
  {
    var whole, from := before + chunk, |before| - |Last(before, keep)|;
    assert whole[from..|whole|] == whole[from..] == Last(before, keep) + chunk;
    assert whole[0..|before|] == whole[..|before|] == before;
    if Holds(whole, marker) { OneOfThem(marker, whole, from, |before|); }
    if Holds(before, marker) { PartHolds(marker, whole, 0, |before|); }
    if Holds(whole[from..|whole|], marker) { PartHolds(marker, whole, from, |whole|); }
  }

  lemma LastOfLast(before: Bytes, chunk: Bytes, keep: nat)
    ensures Last(Last(before, keep) + chunk, keep) == Last(before + chunk, keep)
  {
    var tail := Last(before, keep);
    if |tail| < keep {
      assert tail == before;
    } else {
      var from := |before| - |tail|;
      assert before + chunk == before[..from] + (tail + chunk);
      assert (before + chunk)[from..] == tail + chunk;
      var short := |chunk|;
      assert (tail + chunk)[short..] == (before + chunk)[from + short..];
    }
  }

  function Longest(markers: seq<Bytes>): (n: nat)
    requires markers != []
    ensures forall m | m in markers :: |m| <= n
    ensures exists m | m in markers :: |m| == n
  {
    if |markers| == 1 then assert markers[0] in markers; |markers[0]|
    else
      var rest := Longest(markers[1..]);
      assert exists m | m in markers[1..] :: |m| == rest;
      assert markers == [markers[0]] + markers[1..] && markers[0] in markers;
      if |markers[0]| >= rest then |markers[0]| else rest
  }

  function HeldIn(markers: seq<Bytes>, file: Bytes): set<Bytes> {
    set m | m in markers && Holds(file, m)
  }

  lemma HeldAfterChunk(markers: seq<Bytes>, before: Bytes, chunk: Bytes, keep: nat)
    requires chunk != [] && forall m | m in markers :: |m| <= keep + 1
    ensures HeldIn(markers, before + chunk) == HeldIn(markers, before) + HeldIn(markers, Last(before, keep) + chunk)
  {
    forall m | m in markers
      ensures Holds(before + chunk, m) <==> Holds(before, m) || Holds(Last(before, keep) + chunk, m)
    {
      WindowSuffices(m, before, chunk, keep);
    }
  }

  lemma ConcatAdds(chunks: seq<Bytes>, k: nat)
    requires k < |chunks|
    ensures Concat(chunks[..k + 1]) == Concat(chunks[..k]) + chunks[k]
  {
    assert chunks[..k + 1][..k] == chunks[..k];
  }

  lemma NextChunk(chunks: seq<Bytes>, markers: seq<Bytes>, keep: nat, k: nat)
    requires k < |chunks| && chunks[k] != [] && forall m | m in markers :: |m| <= keep + 1
    ensures var before := Concat(chunks[..k]); var window := Last(before, keep) + chunks[k];
      Last(Concat(chunks[..k + 1]), keep) == Last(window, keep) &&
      HeldIn(markers, Concat(chunks[..k + 1])) == HeldIn(markers, before) + HeldIn(markers, window)
  {
    ConcatAdds(chunks, k);
    HeldAfterChunk(markers, Concat(chunks[..k]), chunks[k], keep);
    LastOfLast(Concat(chunks[..k]), chunks[k], keep);
  }

  /** However a file falls into chunks, the markers found are exactly those of the whole file. */
  method BinaryContains(chunks: seq<Bytes>, markers: seq<Bytes>) returns (found: set<Bytes>)
    requires markers != [] && forall k | 0 <= k < |chunks| :: chunks[k] != []
    ensures found == HeldIn(markers, Concat(chunks))
  {
    var longest := Longest(markers);
    ghost var keep: nat := if longest > 1 then longest - 1 else 0;
    found := {};
    var tail: Bytes := [];
    for k := 0 to |chunks|
      invariant tail == Last(Concat(chunks[..k]), keep) && found == HeldIn(markers, Concat(chunks[..k]))
    {
      NextChunk(chunks, markers, keep, k);
      var window := tail + chunks[k];
      found := found + HeldIn(markers, window);
      tail := if longest > 1 then Last(window, longest - 1) else [];
    }
    assert chunks[..|chunks|] == chunks;
  }
}
