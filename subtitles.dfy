/** The subtitle track and the two lookups `make_frame` does for a time `t`:
    `cur`, the entry shown now, and `nxt`, the upcoming entry hinted below. */
module Subtitles {
  import opened Wrappers

  /** One row of the subtitle table: times in seconds, the Cantonese text,
      its Jyutping and its English translation. */
  datatype Entry = Entry(start: real, end: real, text: string, jyutping: string, english: string)

  /** The entry is on screen at `t`: both ends of its interval included. */
  predicate Covers(e: Entry, t: real)
  {
    e.start <= t <= e.end
  }

  /** The entry `make_frame` shows at `t` (its `cur`): none exactly when no
      entry covers `t`, else the entry at the smallest index that does,
      whatever the other entries' times. */
  function Active(subs: seq<Entry>, t: real): (cur: Option<Entry>)
    ensures cur.None? <==> forall i :: 0 <= i < |subs| ==> !Covers(subs[i], t)
    ensures forall i :: 0 <= i < |subs| && Covers(subs[i], t) ==>
                          (forall j :: 0 <= j < i ==> !Covers(subs[j], t)) ==> cur == Some(subs[i])
    decreases |subs|
  {
    if |subs| == 0 then None
    else if Covers(subs[0], t) then Some(subs[0])
    else Active(subs[1..], t)
  }

  /** The entry `make_frame` hints at `t` (its `nxt`): none exactly when `t`
      is at or after every entry's start, else the entry at the smallest
      index that starts after `t`. */
  function Upcoming(subs: seq<Entry>, t: real): (nxt: Option<Entry>)
    ensures nxt.None? <==> forall i :: 0 <= i < |subs| ==> subs[i].start <= t
    ensures forall i :: 0 <= i < |subs| && subs[i].start > t ==>
                          (forall j :: 0 <= j < i ==> subs[j].start <= t) ==> nxt == Some(subs[i])
    decreases |subs|
  {
    if |subs| == 0 then None
    else if subs[0].start > t then Some(subs[0])
    else Upcoming(subs[1..], t)
  }

  /** Entries in list order, each ending before the next one starts, and
      none ending before it starts. */
  predicate Sequential(subs: seq<Entry>)
  {
    && (forall i :: 0 <= i < |subs| ==> subs[i].start <= subs[i].end)
    && (forall i, j :: 0 <= i < j < |subs| ==> subs[i].end < subs[j].start)
  }

  /** On a track of sequential entries, any time inside entry `k` shows entry
      `k`, and the hint is entry `k + 1` when there is one. */
  lemma SequentialLookup(subs: seq<Entry>, k: nat, t: real)
    requires Sequential(subs)
    requires k < |subs| && Covers(subs[k], t)
    ensures Active(subs, t) == Some(subs[k])
    ensures k + 1 < |subs| ==> Upcoming(subs, t) == Some(subs[k + 1])
    ensures k + 1 == |subs| ==> Upcoming(subs, t) == None
  {
    forall j | 0 <= j < k
      ensures !Covers(subs[j], t)
    {
      assert subs[j].end < subs[k].start;
    }
    forall j | 0 <= j <= k
      ensures subs[j].start <= t
    {
      if j < k {
        assert subs[j].start <= subs[j].end < subs[k].start;
      }
    }
    if k + 1 < |subs| {
      assert subs[k].end < subs[k + 1].start;
    }
  }

  /** Entries in list order where each may end exactly when the next one
      starts (the boundary shared, as times rounded to hundredths often are). */
  predicate Contiguous(subs: seq<Entry>)
  {
    && (forall i :: 0 <= i < |subs| ==> subs[i].start <= subs[i].end)
    && (forall i, j :: 0 <= i < j < |subs| ==> subs[i].end <= subs[j].start)
  }

  /** On a contiguous track, a time strictly inside entry `k` shows entry `k`,
      and the hint is entry `k + 1` when there is one. */
  lemma ContiguousLookup(subs: seq<Entry>, k: nat, t: real)
    requires Contiguous(subs)
    requires k < |subs| && subs[k].start < t < subs[k].end
    ensures Active(subs, t) == Some(subs[k])
    ensures k + 1 < |subs| ==> Upcoming(subs, t) == Some(subs[k + 1])
    ensures k + 1 == |subs| ==> Upcoming(subs, t) == None
  {
    forall j | 0 <= j < k
      ensures !Covers(subs[j], t)
    {
      assert subs[j].end <= subs[k].start;
    }
    forall j | 0 <= j <= k
      ensures subs[j].start <= t
    {
      if j < k {
        assert subs[j].start <= subs[j].end <= subs[k].start;
      }
    }
    if k + 1 < |subs| {
      assert subs[k].end <= subs[k + 1].start;
    }
  }

  /** On a contiguous track, at the instant entry `k` (of non-zero length)
      ends and entry `k + 1` starts, the earlier entry is still shown, and
      the hint is not entry `k + 1` but the first of the entries after it
      that starts later. */
  lemma ContiguousBoundary(subs: seq<Entry>, k: nat)
    requires Contiguous(subs)
    requires k + 1 < |subs| && subs[k].start < subs[k].end == subs[k + 1].start
    ensures Active(subs, subs[k].end) == Some(subs[k])
    ensures Upcoming(subs, subs[k].end) == Upcoming(subs[k + 2..], subs[k].end)
  {
    var t := subs[k].end;
    forall j | 0 <= j < k
      ensures !Covers(subs[j], t)
    {
      assert subs[j].end <= subs[k].start;
    }
    assert Covers(subs[k], t);
    forall j | 0 <= j < k + 2
      ensures subs[j].start <= t
    {
      if j < k {
        assert subs[j].start <= subs[j].end <= subs[k].start;
      }
    }
    UpcomingSkips(subs, t, k + 2);
  }

  /** Entries that start at or before `t` at the head of the track never
      become the hint. */
  lemma {:induction false} UpcomingSkips(subs: seq<Entry>, t: real, m: nat)
    requires m <= |subs|
    requires forall j :: 0 <= j < m ==> subs[j].start <= t
    ensures Upcoming(subs, t) == Upcoming(subs[m..], t)
    decreases m
  {
    if m == 0 {
      assert subs[m..] == subs;
    } else {
      var rest := subs[1..];
      assert subs[0].start <= t;
      assert Upcoming(subs, t) == Upcoming(rest, t);
      forall j | 0 <= j < m - 1
        ensures rest[j].start <= t
      {
        assert rest[j] == subs[j + 1];
      }
      UpcomingSkips(rest, t, m - 1);
      assert rest[m - 1..] == subs[m..];
    }
  }

  /** On a contiguous track, a time before the first start or after the
      last end shows nothing. */
  lemma ContiguousOutside(subs: seq<Entry>, t: real)
    requires Contiguous(subs) && |subs| > 0
    requires t < subs[0].start || t > subs[|subs| - 1].end
    ensures Active(subs, t) == None
  {
    var n := |subs| - 1;
    forall i | 0 <= i < |subs|
      ensures !Covers(subs[i], t)
    {
      if t < subs[0].start && i > 0 {
        assert subs[0].start <= subs[0].end <= subs[i].start;
      }
      if t > subs[n].end && i < n {
        assert subs[i].end <= subs[n].start <= subs[n].end;
      }
    }
  }
}
