/** What compaction leaves of a transcript (src/context.js:223-232). */
module ActiveContext {
  import opened Wrappers

  // A compaction may carry the records it retained; anything else is plain.
  datatype Entry<T> = Compaction(retained: Option<seq<Entry<T>>>) | Plain(record: T)

  predicate NoCompaction<T>(entries: seq<Entry<T>>) {
    forall i :: 0 <= i < |entries| ==> entries[i].Plain?
  }

  // The position of the latest compaction.
  function Latest<T>(entries: seq<Entry<T>>): (at: Option<nat>)
    ensures at.Some? ==> at.value < |entries| && entries[at.value].Compaction? && NoCompaction(entries[at.value + 1..])
    ensures at.None? ==> NoCompaction(entries)
  {
    if entries == [] then None
    else if entries[|entries| - 1].Compaction? then Some(|entries| - 1)
    else Latest(entries[..|entries| - 1])
  }

  function Active<T>(transcript: seq<Entry<T>>): seq<Entry<T>> {
    var at := Latest(transcript);
    if at.None? || transcript[at.value].retained.None? then transcript
    else [transcript[at.value]] + transcript[at.value].retained.value + transcript[at.value + 1..]
  }

  method ActiveContextRecords<T>(transcript: seq<Entry<T>>) returns (active: seq<Entry<T>>)
    ensures active == Active(transcript)
    ensures NoCompaction(transcript) ==> active == transcript
    ensures forall k :: 0 <= k < |transcript| && transcript[k].Compaction? && NoCompaction(transcript[k + 1..]) ==>
      active == match transcript[k].retained
                case None => transcript
                case Some(retained) => [transcript[k]] + retained + transcript[k + 1..]
  {
    forall k | 0 <= k < |transcript| && transcript[k].Compaction? && NoCompaction(transcript[k + 1..])
      ensures Latest(transcript) == Some(k)
    {
      LatestIn(transcript, k);
    }
    var index := |transcript|;
    assert transcript[..index] == transcript;
    while index > 0
      invariant index <= |transcript|
      invariant Latest(transcript) == Latest(transcript[..index])
    {
      if transcript[index - 1].Compaction? {
        break;
      }
      assert transcript[..index][..index - 1] == transcript[..index - 1];
      index := index - 1;
    }
    if index == 0 || transcript[index - 1].retained.None? {
      return transcript;
    }
    return [transcript[index - 1]] + transcript[index - 1].retained.value + transcript[index..];
  }

  lemma {:induction false} LatestIn<T>(entries: seq<Entry<T>>, k: nat)
    requires k < |entries| && entries[k].Compaction? && NoCompaction(entries[k + 1..])
    ensures Latest(entries) == Some(k)
    decreases |entries|
  {
    var init := entries[..|entries| - 1];
    if k < |init| {
      assert entries[k + 1..][|entries| - k - 2] == entries[|entries| - 1];
      var tail := init[k + 1..];
      forall i | 0 <= i < |tail|
        ensures tail[i].Plain?
      {
        assert tail[i] == entries[k + 1..][i];
      }
      LatestIn(init, k);
    }
  }

  /** Nothing recorded after the latest compaction is lost or moved. */
  lemma TailIsKept<T>(transcript: seq<Entry<T>>, k: nat)
    requires k < |transcript| && transcript[k].Compaction? && NoCompaction(transcript[k + 1..])
    ensures var tail, active := transcript[k + 1..], Active(transcript);
      |active| >= |tail| && active[|active| - |tail|..] == tail
  {
    LatestIn(transcript, k);
  }

  /** A projection is not to be projected again: the retained records come twice, so it changes nothing exactly where
      nothing was retained. */
  lemma ProjectingTwice<T>(transcript: seq<Entry<T>>, k: nat)
    requires k < |transcript| && transcript[k].Compaction? && NoCompaction(transcript[k + 1..])
    requires transcript[k].retained.Some? && NoCompaction(transcript[k].retained.value)
    ensures var active, retained := Active(transcript), transcript[k].retained.value;
      && active[1..] == retained + transcript[k + 1..]
      && Active(active) == [transcript[k]] + retained + active[1..]
      && (Active(active) == active <==> retained == [])
  {
    var checkpoint, rest := transcript[k], transcript[k].retained.value + transcript[k + 1..];
    ProjectsLatest(transcript, k);
    ProjectsFront(checkpoint, rest);
    hide Active, Latest, NoCompaction;
    FrontAndRest(checkpoint, rest);
    Longer(checkpoint, checkpoint.retained.value, rest);
  }

  lemma ProjectsLatest<T>(transcript: seq<Entry<T>>, k: nat)
    requires k < |transcript| && transcript[k].Compaction? && NoCompaction(transcript[k + 1..])
    requires transcript[k].retained.Some? && NoCompaction(transcript[k].retained.value)
    ensures Active(transcript) == [transcript[k]] + (transcript[k].retained.value + transcript[k + 1..])
    ensures NoCompaction(transcript[k].retained.value + transcript[k + 1..])
  {
    LatestIn(transcript, k);
  }

  lemma FrontAndRest<T>(first: T, rest: seq<T>)
    ensures ([first] + rest)[1..] == rest
  {
  }

  lemma Longer<T>(first: T, more: seq<T>, rest: seq<T>)
    ensures [first] + more + rest == [first] + rest <==> more == []
  {
    assert |[first] + more + rest| == 1 + |more| + |rest|;
    if more == [] {
      assert [first] + more == [first];
    }
  }

  // A checkpoint at the front brings in what it retained, before what follows it.
  lemma ProjectsFront<T>(checkpoint: Entry<T>, rest: seq<Entry<T>>)
    requires checkpoint.Compaction? && checkpoint.retained.Some? && NoCompaction(rest)
    ensures Active([checkpoint] + rest) == [checkpoint] + checkpoint.retained.value + rest
  {
    var entries := [checkpoint] + rest;
    assert entries[1..] == rest;
    LatestIn(entries, 0);
  }
}
