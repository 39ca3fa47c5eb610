/**
 * The public-information tracker (public_info.go): a cached list of
 * requests addressed to one institution, replaced wholesale by each
 * successful `FetchUpdates`. The HTTP request and the JSON decoding are an
 * abstract input: a failure at one of their stages, or the decoded list.
 */
module PublicInfo {
  import opened Wrappers

  /** The institution whose requests are tracked. */
  const TargetInstitution := 924
  /** The state name of a request that has been answered. */
  const AnsweredState := "RESPONDIDO"

  datatype RequestState = RequestState(name: string)
  datatype Institution = Institution(id: int)

  /** One entry of the feed, with the `Replied` flag the tracker derives. */
  datatype PublicInfoRequest = PublicInfoRequest(
    id: int,
    date: string,
    remainingDays: int,
    title: string,
    state: RequestState,
    institution: Institution,
    replied: bool)

  /** The steps of a fetch that can fail before a list is decoded. */
  datatype FetchStage = HttpGet | NilBody | ReadBody | Unmarshal

  /** What the HTTP request and the JSON decoding produced. */
  datatype Feed = Unavailable(stage: FetchStage) | Decoded(reqs: seq<PublicInfoRequest>)

  /** The errors `FetchUpdates` reports. */
  datatype FetchError = StageFailed(stage: FetchStage) | NoRequestsFound

  predicate IsTracked(r: PublicInfoRequest) { r.institution.id == TargetInstitution }

  /** A kept request is flagged as replied when its state is the answered one; nothing else changes. */
  function MarkReplied(r: PublicInfoRequest): (m: PublicInfoRequest)
    ensures m.replied <==> r.replied || r.state.name == AnsweredState
    ensures m.(replied := r.replied) == r
  {
    if r.state.name == AnsweredState then r.(replied := true) else r
  }

  /** The filter of `FetchUpdates`: tracked requests only, in feed order, each marked. */
  function Tracked(raw: seq<PublicInfoRequest>): (kept: seq<PublicInfoRequest>)
    ensures forall k :: 0 <= k < |kept| ==> IsTracked(kept[k])
    ensures |kept| <= |raw|
  {
    if raw == [] then []
    else
      var last := raw[|raw| - 1];
      Tracked(raw[..|raw| - 1]) + (if IsTracked(last) then [MarkReplied(last)] else [])
  }

  /** A one-entry feed keeps its entry, marked, exactly when it is tracked. */
  lemma TrackedSingle(r: PublicInfoRequest)
    ensures Tracked([r]) == if IsTracked(r) then [MarkReplied(r)] else []
  {
    assert [r][..0] == [];
  }

  /** Filtering works piece by piece, so the kept requests keep their feed order. */
  lemma {:induction false} TrackedAppend(a: seq<PublicInfoRequest>, b: seq<PublicInfoRequest>)
    ensures Tracked(a + b) == Tracked(a) + Tracked(b)
  {
    if b == [] {
      assert a + b == a;
    } else {
      assert (a + b)[..|a + b| - 1] == a + b[..|b| - 1];
      TrackedAppend(a, b[..|b| - 1]);
    }
  }

  /** The positions of the feed that hold tracked requests. */
  ghost function MatchingPositions(raw: seq<PublicInfoRequest>): set<nat> {
    set k: nat | k < |raw| && IsTracked(raw[k])
  }

  /** One kept request per tracked request of the feed. */
  lemma {:induction false} TrackedCount(raw: seq<PublicInfoRequest>)
    ensures |Tracked(raw)| == |MatchingPositions(raw)|
  {
    if raw != [] {
      var init := raw[..|raw| - 1];
      TrackedCount(init);
      var n := |raw| - 1;
      if IsTracked(raw[n]) {
        assert MatchingPositions(raw) == MatchingPositions(init) + {n};
      } else {
        assert MatchingPositions(raw) == MatchingPositions(init);
      }
    }
  }

  /** A request is kept exactly when the feed holds a tracked request it marks. */
  lemma {:induction false} TrackedMembership(raw: seq<PublicInfoRequest>, x: PublicInfoRequest)
    ensures x in Tracked(raw) <==> exists k :: 0 <= k < |raw| && IsTracked(raw[k]) && x == MarkReplied(raw[k])
  {
    if raw != [] {
      var init := raw[..|raw| - 1];
      TrackedMembership(init, x);
      if x in Tracked(raw) && x !in Tracked(init) {
        assert x == MarkReplied(raw[|raw| - 1]);
      }
      if exists k :: 0 <= k < |raw| && IsTracked(raw[k]) && x == MarkReplied(raw[k]) {
        var k :| 0 <= k < |raw| && IsTracked(raw[k]) && x == MarkReplied(raw[k]);
        if k < |raw| - 1 {
          assert init[k] == raw[k];
        }
      }
    }
  }

  /** For a feed that carries no `Replied` flag, a kept request is replied exactly when it is answered. */
  lemma RepliedIffAnswered(raw: seq<PublicInfoRequest>, x: PublicInfoRequest)
    requires forall k :: 0 <= k < |raw| ==> !raw[k].replied
    requires x in Tracked(raw)
    ensures x.replied <==> x.state.name == AnsweredState
  {
    TrackedMembership(raw, x);
  }

  /** A feed with no tracked request filters to the empty list. */
  lemma NoMatchIsEmpty(raw: seq<PublicInfoRequest>)
    requires forall k :: 0 <= k < |raw| ==> !IsTracked(raw[k])
    ensures Tracked(raw) == []
  {
    TrackedCount(raw);
    assert MatchingPositions(raw) == {};
  }

  /** The cache of tracked requests (`PublicInfoTracker`). */
  class PublicInfoTracker {
    var reqs: seq<PublicInfoRequest>

    /** Only requests of the target institution are ever cached. */
    ghost predicate Valid()
      reads this
    {
      forall k :: 0 <= k < |reqs| ==> IsTracked(reqs[k])
    }

    /** A tracker before its first fetch holds no requests. */
    constructor ()
      ensures Valid() && reqs == []
    {
      reqs := [];
    }

    /**
     * `FetchUpdates`: a failed fetch, or a decoded list that is empty,
     * reports an error and keeps the cache; otherwise the cache becomes the
     * tracked requests of the feed, even when none is tracked.
     */
    method FetchUpdates(feed: Feed) returns (err: Option<FetchError>)
      requires Valid()
      modifies this
      ensures Valid()
      ensures feed.Unavailable? ==> err == Some(StageFailed(feed.stage)) && reqs == old(reqs)
      ensures feed.Decoded? && feed.reqs == [] ==> err == Some(NoRequestsFound) && reqs == old(reqs)
      ensures feed.Decoded? && feed.reqs != [] ==> err == None && reqs == Tracked(feed.reqs)
    {
      if feed.Unavailable? {
        return Some(StageFailed(feed.stage));
      }
      var raw := feed.reqs;
      if |raw| == 0 {
        return Some(NoRequestsFound);
      }
      var filtered := [];
      var i := 0;
      while i < |raw|
        invariant 0 <= i <= |raw|
        invariant filtered == Tracked(raw[..i])
      {
        assert raw[..i + 1][..i] == raw[..i];
        var r := raw[i];
        if r.institution.id != TargetInstitution {
          i := i + 1;
          continue;
        }
        if r.state.name == AnsweredState {
          r := r.(replied := true);
        }
        filtered := filtered + [r];
        i := i + 1;
      }
      assert raw[..i] == raw;
      reqs := filtered;
      err := None;
    }
  }

  /**
   * Three requests, two of them for the target institution: the cache ends
   * with those two, flagged by their state; a later empty feed keeps them.
   */
  method TrackerScenario(answered: PublicInfoRequest, pending: PublicInfoRequest, other: PublicInfoRequest)
    requires IsTracked(answered) && IsTracked(pending) && !IsTracked(other)
    requires answered.state.name == AnsweredState && pending.state.name != AnsweredState
    requires !answered.replied && !pending.replied
  {
    var tracker := new PublicInfoTracker();
    var raw := [answered, other, pending];
    var err := tracker.FetchUpdates(Decoded(raw));
    TrackedAppend([answered, other], [pending]);
    TrackedAppend([answered], [other]);
    assert [answered, other] + [pending] == raw;
    assert [answered] + [other] == [answered, other];
    TrackedSingle(answered);
    TrackedSingle(other);
    TrackedSingle(pending);
    assert err == None && |tracker.reqs| == 2;
    assert tracker.reqs[0].replied && !tracker.reqs[1].replied;

    var before := tracker.reqs;
    err := tracker.FetchUpdates(Decoded([]));
    assert err == Some(NoRequestsFound) && tracker.reqs == before;
  }
}
