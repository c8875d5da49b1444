/**
 * Word moderation of one event (slack-moderator-words/events.go, lines
 * 108-147): bot messages are exempt, a nil configuration does nothing, and
 * otherwise every (filter, trigger) pair whose trigger occurs in the text
 * sends the filter's message through the filter's API method.
 */
module Moderation {
  import opened Model
  import opened Strings
  import opened SlackClient

  /** The parameter map sent for one match of filter `f` on event `ev`. */
  function Params(ev: Event, f: Filter): (p: map<string, Json>)
    ensures "channel" in p && p["channel"] == ev.Channel
    ensures "user" in p && p["user"] == Str(ev.User)
    ensures "text" in p && p["text"] == Str(f.Message)
    ensures "thread_ts" in p <==> ev.ThreadTS != ""
    ensures "thread_ts" in p ==> p["thread_ts"] == Str(ev.ThreadTS)
    ensures p.Keys <= {"channel", "user", "text", "thread_ts"}
  {
    var req := map["channel" := ev.Channel, "user" := Str(ev.User), "text" := Str(f.Message)];
    if ev.ThreadTS != "" then req["thread_ts" := Str(ev.ThreadTS)] else req
  }

  /** The call one match of filter `f` produces. */
  function ActionCall(ev: Event, f: Filter): Call
  {
    Call(f.Action, Params(ev, f))
  }

  // ---------------------------------------------------------------------
  // The specification of the nested loop, built the way the loop runs:
  // filter by filter, and within a filter trigger by trigger.
  // ---------------------------------------------------------------------

  /** The calls produced by the first `j` triggers of filter `f`. */
  function TriggerCalls(ev: Event, f: Filter, j: nat): seq<Call>
    requires j <= |f.Triggers|
  {
    if j == 0 then []
    else TriggerCalls(ev, f, j - 1)
         + (if Contains(ev.Text, f.Triggers[j - 1]) then [ActionCall(ev, f)] else [])
  }

  /** The calls produced by the first `n` filters of `fs`. */
  function FilterCalls(ev: Event, fs: seq<Filter>, n: nat): seq<Call>
    requires n <= |fs|
  {
    if n == 0 then []
    else FilterCalls(ev, fs, n - 1) + TriggerCalls(ev, fs[n - 1], |fs[n - 1].Triggers|)
  }

  /** The calls a non-bot event produces against a non-nil filter list. */
  function ModerationCalls(ev: Event, fs: seq<Filter>): seq<Call>
  {
    FilterCalls(ev, fs, |fs|)
  }

  // ---------------------------------------------------------------------
  // An independent description: the matching (filter, trigger) index pairs.
  // ---------------------------------------------------------------------

  /** A trigger hit: index of the filter and index of the trigger within it. */
  datatype Match = Match(filter: nat, trigger: nat)

  /** Filter order first, then trigger order. */
  predicate Before(a: Match, b: Match)
  {
    a.filter < b.filter || (a.filter == b.filter && a.trigger < b.trigger)
  }

  /** The pair `m` indexes a trigger of `fs` that occurs in `text`. */
  predicate IsHit(text: string, fs: seq<Filter>, m: Match)
  {
    m.filter < |fs| && m.trigger < |fs[m.filter].Triggers|
    && Contains(text, fs[m.filter].Triggers[m.trigger])
  }

  /** Hits among the first `j` triggers of filter number `i`. */
  function TriggerMatches(text: string, i: nat, f: Filter, j: nat): seq<Match>
    requires j <= |f.Triggers|
  {
    if j == 0 then []
    else TriggerMatches(text, i, f, j - 1)
         + (if Contains(text, f.Triggers[j - 1]) then [Match(i, j - 1)] else [])
  }

  /** Hits among the first `n` filters of `fs`. */
  function Matches(text: string, fs: seq<Filter>, n: nat): seq<Match>
    requires n <= |fs|
  {
    if n == 0 then []
    else Matches(text, fs, n - 1) + TriggerMatches(text, n - 1, fs[n - 1], |fs[n - 1].Triggers|)
  }

  /** Within filter number `i`, the hits are exactly its occurring triggers, in trigger order. */
  lemma {:induction false} TriggerMatchesExact(text: string, i: nat, f: Filter, j: nat)
    requires j <= |f.Triggers|
    ensures forall m :: m in TriggerMatches(text, i, f, j) <==>
      m.filter == i && m.trigger < j && Contains(text, f.Triggers[m.trigger])
    ensures forall a, b :: 0 <= a < b < |TriggerMatches(text, i, f, j)| ==>
      TriggerMatches(text, i, f, j)[a].trigger < TriggerMatches(text, i, f, j)[b].trigger
  {
    if j > 0 {
      TriggerMatchesExact(text, i, f, j - 1);
    }
  }

  /** The hits are exactly the pairs whose trigger occurs in the text. */
  lemma {:induction false} MatchesExact(text: string, fs: seq<Filter>, n: nat)
    requires n <= |fs|
    ensures forall m :: m in Matches(text, fs, n) <==> m.filter < n && IsHit(text, fs, m)
  {
    if n > 0 {
      MatchesExact(text, fs, n - 1);
      TriggerMatchesExact(text, n - 1, fs[n - 1], |fs[n - 1].Triggers|);
    }
  }

  /** The hits are listed in filter order, then trigger order, each once. */
  lemma {:induction false} MatchesOrdered(text: string, fs: seq<Filter>, n: nat)
    requires n <= |fs|
    ensures forall a, b :: 0 <= a < b < |Matches(text, fs, n)| ==>
      Before(Matches(text, fs, n)[a], Matches(text, fs, n)[b])
  {
    if n > 0 {
      MatchesOrdered(text, fs, n - 1);
      MatchesExact(text, fs, n - 1);
      var front := Matches(text, fs, n - 1);
      var last := TriggerMatches(text, n - 1, fs[n - 1], |fs[n - 1].Triggers|);
      TriggerMatchesExact(text, n - 1, fs[n - 1], |fs[n - 1].Triggers|);
      var ms := front + last;
      forall a, b | 0 <= a < b < |ms| ensures Before(ms[a], ms[b]) {
        if b < |front| {
        } else if a < |front| {
          assert front[a] in front;
          assert last[b - |front|] in last;
        } else {
          assert ms[a] == last[a - |front|] && ms[b] == last[b - |front|];
        }
      }
    }
  }

  /** Within one filter, there is one call per hit, each the filter's action call. */
  lemma {:induction false} TriggerCallsFollowMatches(ev: Event, i: nat, f: Filter, j: nat)
    requires j <= |f.Triggers|
    ensures |TriggerCalls(ev, f, j)| == |TriggerMatches(ev.Text, i, f, j)|
    ensures forall k :: 0 <= k < |TriggerCalls(ev, f, j)| ==> TriggerCalls(ev, f, j)[k] == ActionCall(ev, f)
  {
    if j > 0 {
      TriggerCallsFollowMatches(ev, i, f, j - 1);
    }
  }

  /** The k-th call is the action of the filter of the k-th hit. */
  lemma {:induction false} CallsFollowMatches(ev: Event, fs: seq<Filter>, n: nat)
    requires n <= |fs|
    ensures |FilterCalls(ev, fs, n)| == |Matches(ev.Text, fs, n)|
    ensures forall k :: 0 <= k < |FilterCalls(ev, fs, n)| ==>
      Matches(ev.Text, fs, n)[k].filter < n
      && FilterCalls(ev, fs, n)[k] == ActionCall(ev, fs[Matches(ev.Text, fs, n)[k].filter])
  {
    if n > 0 {
      CallsFollowMatches(ev, fs, n - 1);
      MatchesExact(ev.Text, fs, n);
      var f := fs[n - 1];
      TriggerCallsFollowMatches(ev, n - 1, f, |f.Triggers|);
      TriggerMatchesExact(ev.Text, n - 1, f, |f.Triggers|);
      var calls := FilterCalls(ev, fs, n);
      var ms := Matches(ev.Text, fs, n);
      var front := Matches(ev.Text, fs, n - 1);
      forall k | 0 <= k < |calls|
        ensures ms[k].filter < n && calls[k] == ActionCall(ev, fs[ms[k].filter])
      {
        assert ms[k] in ms;
        if |front| <= k {
          assert ms[k] in TriggerMatches(ev.Text, n - 1, f, |f.Triggers|);
        }
      }
    }
  }

  /**
   * The calls are exactly one per hit, in filter order then trigger order:
   * the k-th call belongs to the k-th hit, and each call is the filter's
   * action with channel, user, message and optional thread timestamp.
   */
  lemma CallsAreHits(ev: Event, fs: seq<Filter>)
    ensures |ModerationCalls(ev, fs)| == |Matches(ev.Text, fs, |fs|)|
    ensures forall m :: m in Matches(ev.Text, fs, |fs|) <==> IsHit(ev.Text, fs, m)
    ensures forall a, b :: 0 <= a < b < |Matches(ev.Text, fs, |fs|)| ==>
      Before(Matches(ev.Text, fs, |fs|)[a], Matches(ev.Text, fs, |fs|)[b])
    ensures forall k :: 0 <= k < |ModerationCalls(ev, fs)| ==>
      Matches(ev.Text, fs, |fs|)[k].filter < |fs|
      && ModerationCalls(ev, fs)[k] == ActionCall(ev, fs[Matches(ev.Text, fs, |fs|)[k].filter])
  {
    MatchesExact(ev.Text, fs, |fs|);
    MatchesOrdered(ev.Text, fs, |fs|);
    CallsFollowMatches(ev, fs, |fs|);
  }

  /** Some call is produced if and only if some trigger of some filter occurs in the text. */
  lemma AnyCallIffAnyHit(ev: Event, fs: seq<Filter>)
    ensures ModerationCalls(ev, fs) != [] <==>
      exists i, j :: 0 <= i < |fs| && 0 <= j < |fs[i].Triggers| && Contains(ev.Text, fs[i].Triggers[j])
  {
    CallsAreHits(ev, fs);
    var ms := Matches(ev.Text, fs, |fs|);
    if ModerationCalls(ev, fs) != [] {
      assert ms[0] in ms;
    }
    if exists i, j :: 0 <= i < |fs| && 0 <= j < |fs[i].Triggers| && Contains(ev.Text, fs[i].Triggers[j]) {
      var i, j :| 0 <= i < |fs| && 0 <= j < |fs[i].Triggers| && Contains(ev.Text, fs[i].Triggers[j]);
      assert IsHit(ev.Text, fs, Match(i, j));
    }
  }

  /** An empty trigger occurs in every text, so its filter always fires. */
  lemma EmptyTriggerAlwaysFires(ev: Event, fs: seq<Filter>, i: nat, j: nat)
    requires i < |fs| && j < |fs[i].Triggers| && fs[i].Triggers[j] == ""
    ensures ActionCall(ev, fs[i]) in ModerationCalls(ev, fs)
  {
    CallsAreHits(ev, fs);
    var ms := Matches(ev.Text, fs, |fs|);
    assert IsHit(ev.Text, fs, Match(i, j));
    var k :| 0 <= k < |ms| && ms[k] == Match(i, j);
    assert ModerationCalls(ev, fs)[k] == ActionCall(ev, fs[i]);
  }

  /** Two triggers of one filter that both occur yield two calls, the first before the second. */
  lemma TwoHitsTwoCalls(ev: Event, fs: seq<Filter>, i: nat, j1: nat, j2: nat)
    requires i < |fs| && j1 < j2 < |fs[i].Triggers|
    requires Contains(ev.Text, fs[i].Triggers[j1]) && Contains(ev.Text, fs[i].Triggers[j2])
    ensures exists k1, k2 ::
              0 <= k1 < k2 < |ModerationCalls(ev, fs)|
              && k2 < |Matches(ev.Text, fs, |fs|)|
              && Matches(ev.Text, fs, |fs|)[k1] == Match(i, j1)
              && Matches(ev.Text, fs, |fs|)[k2] == Match(i, j2)
              && ModerationCalls(ev, fs)[k1] == ActionCall(ev, fs[i])
              && ModerationCalls(ev, fs)[k2] == ActionCall(ev, fs[i])
  {
    CallsAreHits(ev, fs);
    var ms := Matches(ev.Text, fs, |fs|);
    assert IsHit(ev.Text, fs, Match(i, j1)) && IsHit(ev.Text, fs, Match(i, j2));
    var k1 :| 0 <= k1 < |ms| && ms[k1] == Match(i, j1);
    var k2 :| 0 <= k2 < |ms| && ms[k2] == Match(i, j2);
    assert k1 < k2;
    var calls := ModerationCalls(ev, fs);
    assert calls[k1] == ActionCall(ev, fs[i]) && calls[k2] == ActionCall(ev, fs[i]);
  }

  // ---------------------------------------------------------------------
  // The handler's loop.
  // ---------------------------------------------------------------------

  /**
   * Moderation of one event that reached the message path: returns the
   * calls sent in order, the `matched` flag, and whether an error was
   * reported. `api(k)` holds when the API answers the k-th call with an
   * error; every error is reported and the loop goes on regardless.
   */
  method Moderate(ev: Event, config: FilterConfig, api: nat -> bool)
    returns (calls: seq<Call>, matched: bool, errorReported: bool)
    ensures ev.BotID != "" || config.Nil? ==> calls == [] && !matched && !errorReported
    ensures ev.BotID == "" && config.Filters? ==> calls == ModerationCalls(ev, config.list)
    ensures matched <==> calls != []
    ensures errorReported <==> exists k :: 0 <= k < |calls| && api(k)
  {
    calls, matched, errorReported := [], false, false;
    if ev.BotID != "" {
      return;
    }
    if config.Nil? {
      return;
    }
    var filters := config.list;
    var i := 0;
    while i < |filters|
      invariant 0 <= i <= |filters|
      invariant calls == FilterCalls(ev, filters, i)
      invariant matched <==> calls != []
      invariant errorReported <==> exists k :: 0 <= k < |calls| && api(k)
    {
      var filter := filters[i];
      var j := 0;
      while j < |filter.Triggers|
        invariant 0 <= j <= |filter.Triggers|
        invariant calls == FilterCalls(ev, filters, i) + TriggerCalls(ev, filter, j)
        invariant matched <==> calls != []
        invariant errorReported <==> exists k :: 0 <= k < |calls| && api(k)
      {
        var word := filter.Triggers[j];
        if Contains(ev.Text, word) {
          matched := true;
          var req := map["channel" := ev.Channel, "user" := Str(ev.User), "text" := Str(filter.Message)];
          if ev.ThreadTS != "" {
            req := req["thread_ts" := Str(ev.ThreadTS)];
          }
          var failed;
          calls, failed := CallMethod(calls, filter.Action, req, api);
          if failed {
            errorReported := true;
          }
        }
        j := j + 1;
      }
      i := i + 1;
    }
  }
}
