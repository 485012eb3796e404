/** Two chunked searches for a marker in a file: a streaming count with a carry, and a backward search with an overlap. */
module MarkerScan {
  import opened Bytes
  import opened Sequences

  const COUNT_CHUNK: nat := 1024 * 1024

  predicate MarkerAt(file: seq<Byte>, marker: seq<Byte>, i: int) {
    0 <= i && i + |marker| <= |file| && file[i..i + |marker|] == marker
  }

  ghost function Offsets(file: seq<Byte>, marker: seq<Byte>): set<int> {
    set i | 0 <= i <= |file| && MarkerAt(file, marker, i)
  }

  // ── Streaming count ────────────────────────────────────────────────────────

  /** Occurrences, counted by where they end. */
  function Occurrences(file: seq<Byte>, marker: seq<Byte>): nat
    requires marker != []
  {
    if |file| < |marker| then 0
    else Occurrences(file[..|file| - 1], marker) + if MarkerAt(file, marker, |file| - |marker|) then 1 else 0
  }

  lemma FrontWindows(file: seq<Byte>, marker: seq<Byte>, i: int)
    requires marker != [] && file != [] && 0 <= i < |file| - |marker|
    ensures MarkerAt(file, marker, i) <==> MarkerAt(file[..|file| - 1], marker, i)
  {
    SliceOfSlice(file, 0, |file| - 1, i, |marker|);
    assert file[0..|file| - 1] == file[..|file| - 1];
  }

  lemma OffsetsGrow(file: seq<Byte>, marker: seq<Byte>)
    requires marker != [] && |file| >= |marker|
    ensures var last := |file| - |marker|;
            && last !in Offsets(file[..|file| - 1], marker)
            && Offsets(file, marker) == Offsets(file[..|file| - 1], marker) + if MarkerAt(file, marker, last) then {last} else {}
  {
    hide MarkerAt;
    var front, last := file[..|file| - 1], |file| - |marker|;
    forall i: int
      ensures MarkerAt(file, marker, i) ==> 0 <= i <= last
      ensures MarkerAt(front, marker, i) ==> 0 <= i < last
      ensures 0 <= i < last ==> (MarkerAt(file, marker, i) <==> MarkerAt(front, marker, i))
    {
      Fits(file, marker, i);
      Fits(front, marker, i);
      if 0 <= i < last {
        FrontWindows(file, marker, i);
      }
    }
  }

  lemma Fits(file: seq<Byte>, marker: seq<Byte>, i: int)
    ensures MarkerAt(file, marker, i) ==> 0 <= i <= |file| - |marker|
  {}

  /** The count is the number of offsets at which the marker stands. */
  lemma {:induction false} OccurrencesAreOffsets(file: seq<Byte>, marker: seq<Byte>)
    requires marker != []
    ensures Occurrences(file, marker) == |Offsets(file, marker)|
  {
    hide MarkerAt, Offsets;
    if |file| < |marker| {
      NoOffsets(file, marker);
    } else {
      OccurrencesAreOffsets(file[..|file| - 1], marker);
      OffsetsGrow(file, marker);
    }
  }

  lemma NoOffsets(file: seq<Byte>, marker: seq<Byte>)
    requires |file| < |marker|
    ensures Offsets(file, marker) == {}
  {}

  /** The bytes carried from one read to the next: all but one byte of a marker, or everything if there is less. */
  function Carry(seen: seq<Byte>, marker: seq<Byte>): (c: seq<Byte>)
    requires marker != []
    ensures |c| < |marker| && |c| <= |seen| && (|c| == |seen| || |c| == |marker| - 1)
  {
    var keep := if |marker| - 1 < |seen| then |marker| - 1 else |seen|;
    seen[|seen| - keep..]
  }

  lemma LastByte(file: seq<Byte>, marker: seq<Byte>)
    requires marker != [] && file != []
    ensures Occurrences(file, marker) ==
            Occurrences(file[..|file| - 1], marker) + if MarkerAt(file, marker, |file| - |marker|) then 1 else 0
  {
    hide MarkerAt;
    Fits(file, marker, |file| - |marker|);
  }

  lemma OneMore(s: seq<Byte>, b: Byte, marker: seq<Byte>)
    requires marker != []
    ensures Occurrences(s + [b], marker) == Occurrences(s, marker) + if MarkerAt(s + [b], marker, |s| + 1 - |marker|) then 1 else 0
  {
    hide MarkerAt, Occurrences;
    LastByte(s + [b], marker);
    DropFront(s, [b]);
  }

  /** A longer and a shorter ending agree on their last window. */
  lemma SameLastWindow(whole: seq<Byte>, skip: nat, marker: seq<Byte>)
    requires marker != [] && skip <= |whole| && (skip == 0 || |whole| - skip >= |marker|)
    ensures MarkerAt(whole, marker, |whole| - |marker|) <==> MarkerAt(whole[skip..], marker, |whole| - skip - |marker|)
  {
    if skip > 0 {
      SliceOfSlice(whole, skip, |whole|, |whole| - skip - |marker|, |marker|);
      assert whole[skip..|whole|] == whole[skip..];
    } else {
      assert whole[skip..] == whole;
    }
  }

  lemma CarryIsEnding(seen: seq<Byte>, read: seq<Byte>, marker: seq<Byte>)
    requires marker != []
    ensures (seen + read)[|seen| - |Carry(seen, marker)|..] == Carry(seen, marker) + read
  {
    var skip := |seen| - |Carry(seen, marker)|;
    assert seen == seen[..skip] + Carry(seen, marker);
    Regroup(seen[..skip], Carry(seen, marker), read);
  }

  /** One more byte completes an occurrence in the whole exactly when it does in a long enough ending. */
  lemma EndingStep(whole: seq<Byte>, skip: nat, b: Byte, marker: seq<Byte>)
    requires marker != [] && skip <= |whole| && (skip == 0 || |whole| - skip + 1 >= |marker|)
    ensures Occurrences(whole + [b], marker) - Occurrences(whole, marker) ==
            Occurrences(whole[skip..] + [b], marker) - Occurrences(whole[skip..], marker)
  {
    hide Occurrences, MarkerAt;
    OneMore(whole, b, marker);
    OneMore(whole[skip..], b, marker);
    assert (whole + [b])[skip..] == whole[skip..] + [b];
    SameLastWindow(whole + [b], skip, marker);
  }

  /** Searching the carry and the next read finds exactly the occurrences that the read completes. */
  lemma {:induction false} CarryCounts(seen: seq<Byte>, read: seq<Byte>, marker: seq<Byte>)
    requires marker != []
    ensures Occurrences(seen + read, marker) == Occurrences(seen, marker) + Occurrences(Carry(seen, marker) + read, marker)
  {
    var c := Carry(seen, marker);
    if read == [] {
      assert seen + read == seen && c + read == c;
    } else {
      hide Occurrences, Carry;
      var front, b := read[..|read| - 1], read[|read| - 1];
      CarryCounts(seen, front, marker);
      CarryIsEnding(seen, front, marker);
      EndingStep(seen + front, |seen| - |c|, b, marker);
      assert front + [b] == read;
      Regroup(seen, front, [b]);
      Regroup(c, front, [b]);
    }
  }

  lemma CarryStep(seen: seq<Byte>, read: seq<Byte>, marker: seq<Byte>)
    requires marker != []
    ensures Carry(Carry(seen, marker) + read, marker) == Carry(seen + read, marker)
  {}

  /** Windows of a chunk equal to the marker. */
  method CountWindows(chunk: seq<Byte>, marker: seq<Byte>) returns (count: nat)
    requires marker != []
    ensures count == Occurrences(chunk, marker)
  {
    hide Occurrences;
    count := 0;
    NoneInNothing(marker);
    for end := 0 to |chunk|
      invariant count == Occurrences(chunk[..end], marker)
    {
      assert chunk[..end + 1] == chunk[..end] + [chunk[end]];
      OneMore(chunk[..end], chunk[end], marker);
      if end + 1 >= |marker| {
        var i := end + 1 - |marker|;
        SliceOfSlice(chunk, 0, end + 1, i, |marker|);
        if chunk[i..end + 1] == marker {
          count := count + 1;
        }
      }
    }
    assert chunk[..|chunk|] == chunk;
  }

  lemma NoneInNothing(marker: seq<Byte>)
    requires marker != []
    ensures Occurrences([], marker) == 0
  {}

  /** How many bytes a read returns: at least one unless the file is exhausted, at most the buffer. */
  function ReadLength(wish: nat, remaining: nat): (n: nat)
    ensures n <= remaining && n <= COUNT_CHUNK && (n == 0 <==> remaining == 0)
  {
    var most := if remaining < COUNT_CHUNK then remaining else COUNT_CHUNK;
    if wish < 1 && most > 0 then 1 else if wish < most then wish else most
  }

  lemma ReadStep(file: seq<Byte>, position: nat, read: nat, marker: seq<Byte>)
    requires marker != [] && position + read <= |file|
    ensures var chunk := Carry(file[..position], marker) + file[position..position + read];
            && Occurrences(file[..position + read], marker) == Occurrences(file[..position], marker) + Occurrences(chunk, marker)
            && Carry(file[..position + read], marker) == Carry(chunk, marker)
  {
    hide Occurrences, Carry;
    var seen, buffer := file[..position], file[position..position + read];
    assert seen + buffer == file[..position + read];
    CarryCounts(seen, buffer, marker);
    CarryStep(seen, buffer, marker);
  }

  /** `count_delta_segments`, for every way the reads may be split. */
  method CountSegments(file: seq<Byte>, marker: seq<Byte>, wish: nat -> nat) returns (count: nat)
    requires marker != []
    ensures count == |Offsets(file, marker)|
  {
    hide Occurrences, Offsets, Carry, ReadLength;
    count := 0;
    NoneInNothing(marker);
    var carry := Carry([], marker);
    var position: nat, calls: nat := 0, 0;
    while true
      invariant position <= |file|
      invariant carry == Carry(file[..position], marker)
      invariant count == Occurrences(file[..position], marker)
      decreases |file| - position
    {
      var read := ReadLength(wish(calls), |file| - position);
      if read == 0 {
        break;
      }
      ReadStep(file, position, read, marker);
      var chunk := carry + file[position..position + read];
      var found := CountWindows(chunk, marker);
      count := count + found;
      carry := Carry(chunk, marker);
      position, calls := position + read, calls + 1;
    }
    assert file[..|file|] == file;
    OccurrencesAreOffsets(file, marker);
  }

  // ── Backward search ────────────────────────────────────────────────────────

  /** The last window of a buffer equal to the marker. */
  method LastWindow(buffer: seq<Byte>, marker: seq<Byte>) returns (r: Option<nat>)
    ensures r.Some? ==> MarkerAt(buffer, marker, r.value) && forall i :: r.value < i ==> !MarkerAt(buffer, marker, i)
    ensures r.None? ==> forall i :: !MarkerAt(buffer, marker, i)
  {
    var i: int := |buffer| - |marker|;
    while i >= 0
      invariant forall j :: i < j ==> !MarkerAt(buffer, marker, j)
    {
      if buffer[i..i + |marker|] == marker {
        return Some(i);
      }
      i := i - 1;
    }
    r := None;
  }

  /** `find_last_delta_segment_marker`: the greatest offset, or an error exactly when there is none. */
  method FindLast(file: seq<Byte>, marker: seq<Byte>, chunkBytes: nat) returns (r: Result<nat>)
    requires chunkBytes > 0
    ensures r.Ok? <==> marker != [] && exists i :: MarkerAt(file, marker, i)
    ensures r.Ok? ==> MarkerAt(file, marker, r.value) && forall i :: r.value < i ==> !MarkerAt(file, marker, i)
  {
    if marker == [] {
      return Err("delta segment marker must not be empty");
    }
    var overlap := |marker| - 1;
    var searchEnd: nat := |file|;
    while searchEnd > 0
      invariant searchEnd <= |file|
      invariant forall i :: searchEnd <= i ==> !MarkerAt(file, marker, i)
    {
      var chunkStart: nat := if searchEnd < chunkBytes then 0 else searchEnd - chunkBytes;
      var readEnd: nat := if searchEnd == |file| then searchEnd
                     else if searchEnd + overlap < |file| then searchEnd + overlap else |file|;
      var buffer := file[chunkStart..readEnd];
      var found := LastWindow(buffer, marker);
      ChunkSees(file, marker, chunkStart, searchEnd, readEnd);
      if found.Some? {
        return Ok(chunkStart + found.value);
      }
      searchEnd := chunkStart;
    }
    r := Err("delta segment marker not found");
  }

  lemma MarkerInside(file: seq<Byte>, marker: seq<Byte>, from: nat, to: nat, i: int)
    requires from <= to <= |file| && 0 <= i && i + |marker| <= to - from
    ensures MarkerAt(file[from..to], marker, i) <==> MarkerAt(file, marker, from + i)
  {
    SliceOfSlice(file, from, to, i, |marker|);
  }

  /** A chunk with its overlap holds every occurrence that starts in the chunk, and only occurrences of the file. */
  lemma ChunkSees(file: seq<Byte>, marker: seq<Byte>, chunkStart: nat, searchEnd: nat, readEnd: nat)
    requires chunkStart < searchEnd <= readEnd <= |file| && marker != []
    requires readEnd == |file| || readEnd == searchEnd + |marker| - 1
    ensures var buffer := file[chunkStart..readEnd];
            && (forall i :: MarkerAt(buffer, marker, i) ==> MarkerAt(file, marker, chunkStart + i))
            && (forall i :: chunkStart <= i < searchEnd && MarkerAt(file, marker, i) ==> MarkerAt(buffer, marker, i - chunkStart))
  {
    hide MarkerAt;
    var buffer := file[chunkStart..readEnd];
    forall i | MarkerAt(buffer, marker, i)
      ensures MarkerAt(file, marker, chunkStart + i)
    {
      Fits(buffer, marker, i);
      MarkerInside(file, marker, chunkStart, readEnd, i);
    }
    forall i | chunkStart <= i < searchEnd && MarkerAt(file, marker, i)
      ensures MarkerAt(buffer, marker, i - chunkStart)
    {
      Fits(file, marker, i);
      MarkerInside(file, marker, chunkStart, readEnd, i - chunkStart);
    }
  }
}
