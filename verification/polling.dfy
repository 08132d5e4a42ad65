/** One polling task: which resources each pollster is given in a cycle, and which it never gets again. */
module Polling {
  import opened Sequences
  import opened Wrappers

  type Resource(==, !new)

  /** A pollster that matches a source, with the resources that discovery and configuration give it. */
  datatype Match = Match(source: string, pollster: string, candidates: seq<Resource>)

  /** `Resources.key`. */
  function Key(m: Match): string {
    m.source + "-" + m.pollster
  }

  type Lists = map<string, seq<Resource>>

  function ListAt(lists: Lists, key: string): seq<Resource> {
    if key in lists then lists[key] else []
  }

  /** What a pollster answers for the resources it is given: the resources it will never manage, if it
      fails permanently. Arguments are the position in the cycle and the resources. */
  type Outcome = (nat, seq<Resource>) -> Option<seq<Resource>>

  /** The candidates that are not in the history, each once. */
  function Unseen(candidates: seq<Resource>, history: seq<Resource>): seq<Resource> {
    if candidates == [] then [] else
    var x := candidates[0];
    if x in history then Unseen(candidates[1..], history) else [x] + Unseen(candidates[1..], history + [x])
  }

  function Without(xs: seq<Resource>, black: seq<Resource>): seq<Resource> {
    if xs == [] then [] else (if xs[0] in black then [] else [xs[0]]) + Without(xs[1..], black)
  }

  /** Where a cycle stands: what each pollster name has seen, the blacklists, and what was polled. */
  datatype Cycle = Cycle(history: Lists, black: Lists, polls: seq<seq<Resource>>)

  /** One turn of the loops over sources and pollsters. */
  function Turn(m: Match, outcome: Outcome, c: Cycle): Cycle {
    var history := ListAt(c.history, m.pollster);
    var unseen := Unseen(m.candidates, history);
    var polled := Without(unseen, ListAt(c.black, Key(m)));
    var failed := if polled == [] then None else outcome(|c.polls|, polled);
    Cycle(c.history[m.pollster := history + unseen],
          if failed.Some? then c.black[Key(m) := ListAt(c.black, Key(m)) + failed.value] else c.black,
          c.polls + [polled])
  }

  function Turns(matches: seq<Match>, outcome: Outcome, black: Lists): (c: Cycle)
    ensures |c.polls| == |matches|
  {
    if matches == [] then Cycle(map[], black, [])
    else Turn(matches[|matches| - 1], outcome, Turns(matches[..|matches| - 1], outcome, black))
  }

  predicate NoRepeats(xs: seq<Resource>) {
    forall i, j :: 0 <= i < j < |xs| ==> xs[i] != xs[j]
  }

  lemma {:induction false} UnseenIsNew(candidates: seq<Resource>, history: seq<Resource>)
    ensures var unseen := Unseen(candidates, history);
            && NoRepeats(unseen)
            && forall x :: x in unseen <==> x in candidates && x !in history
  {
    if candidates != [] {
      var x := candidates[0];
      UnseenIsNew(candidates[1..], if x in history then history else history + [x]);
      if x !in history {
        var rest := Unseen(candidates[1..], history + [x]);
        assert x in history + [x] && x !in rest;
        assert forall y :: y in candidates <==> y == x || y in candidates[1..];
      }
    }
  }

  lemma {:induction false} WithoutKeepsOthers(xs: seq<Resource>, black: seq<Resource>)
    requires NoRepeats(xs)
    ensures NoRepeats(Without(xs, black))
    ensures forall x :: x in Without(xs, black) <==> x in xs && x !in black
  {
    if xs != [] {
      WithoutKeepsOthers(xs[1..], black);
      assert forall i :: 0 < i < |xs| ==> xs[i] == xs[1..][i - 1];
    }
  }

  /** A match of the pollster name before position n has the resource among its candidates. */
  ghost predicate ListedBefore(matches: seq<Match>, n: nat, name: string, x: Resource)
    requires n <= |matches|
  {
    exists j :: 0 <= j < n && matches[j].pollster == name && x in matches[j].candidates
  }

  lemma ListedInPrefix(matches: seq<Match>, n: nat, name: string, x: Resource)
    requires n <= |matches|
    ensures ListedBefore(matches[..n], n, name, x) <==> ListedBefore(matches, n, name, x)
  {
    assert forall j :: 0 <= j < n ==> matches[..n][j] == matches[j];
  }

  lemma {:induction false} HistoryIsListed(matches: seq<Match>, outcome: Outcome, black: Lists, name: string,
                                           x: Resource)
    ensures x in ListAt(Turns(matches, outcome, black).history, name) <==> ListedBefore(matches, |matches|, name, x)
  {
    if matches != [] {
      var n := |matches| - 1;
      HistoryIsListed(matches[..n], outcome, black, name, x);
      var before := Turns(matches[..n], outcome, black);
      UnseenIsNew(matches[n].candidates, ListAt(before.history, matches[n].pollster));
      ListedInPrefix(matches, n, name, x);
      assert ListedBefore(matches, n + 1, name, x)
        <==> ListedBefore(matches, n, name, x) || (matches[n].pollster == name && x in matches[n].candidates);
    }
  }

  lemma {:induction false} EarlierTurns(matches: seq<Match>, outcome: Outcome, black: Lists, i: nat)
    requires i < |matches|
    ensures Turns(matches, outcome, black).polls[i] == Turns(matches[..i + 1], outcome, black).polls[i]
  {
    if i < |matches| - 1 {
      EarlierTurns(matches[..|matches| - 1], outcome, black, i);
      assert matches[..|matches| - 1][..i + 1] == matches[..i + 1];
    } else {
      assert matches[..i + 1] == matches;
    }
  }

  /** In a cycle a pollster is given exactly those of its candidates, each once, that no earlier match
      of its name lists and that are not on its blacklist by then. */
  lemma TurnPollsExactly(matches: seq<Match>, outcome: Outcome, black: Lists, i: nat)
    requires i < |matches|
    ensures var polled := Turns(matches, outcome, black).polls[i];
            var banned := ListAt(Turns(matches[..i], outcome, black).black, Key(matches[i]));
            && NoRepeats(polled)
            && forall x :: x in polled <==> (
                 x in matches[i].candidates && x !in banned && !ListedBefore(matches, i, matches[i].pollster, x))
  {
    EarlierTurns(matches, outcome, black, i);
    var upto := matches[..i + 1];
    assert upto[..i] == matches[..i];
    var before := Turns(matches[..i], outcome, black);
    var history := ListAt(before.history, matches[i].pollster);
    UnseenIsNew(matches[i].candidates, history);
    WithoutKeepsOthers(Unseen(matches[i].candidates, history), ListAt(before.black, Key(matches[i])));
    forall x
      ensures x in history <==> ListedBefore(matches, i, matches[i].pollster, x)
    {
      HistoryIsListed(matches[..i], outcome, black, matches[i].pollster, x);
      ListedInPrefix(matches, i, matches[i].pollster, x);
    }
  }

  /** So in one cycle no resource is given to pollsters of the same name twice. */
  lemma NeverPolledTwice(matches: seq<Match>, outcome: Outcome, black: Lists, i: nat, j: nat, x: Resource)
    requires i < j < |matches| && matches[i].pollster == matches[j].pollster
    ensures var polls := Turns(matches, outcome, black).polls;
            !(x in polls[i] && x in polls[j])
  {
    TurnPollsExactly(matches, outcome, black, i);
    TurnPollsExactly(matches, outcome, black, j);
    assert x in matches[i].candidates ==> ListedBefore(matches, j, matches[j].pollster, x);
  }

  // ---------------------------------------------------------------- many cycles

  /** What happens in one cycle: the matches, in the order of that cycle, and their outcomes. */
  datatype Round = Round(matches: seq<Match>, outcome: Outcome)

  function BlackAfter(rounds: seq<Round>): Lists {
    if rounds == [] then map[] else
    var n := |rounds| - 1;
    Turns(rounds[n].matches, rounds[n].outcome, BlackAfter(rounds[..n])).black
  }

  /** The resource was given at this place of the run. */
  ghost predicate PolledAt(rounds: seq<Round>, r: nat, i: nat, x: Resource) {
    && r < |rounds| && i < |rounds[r].matches|
    && x in Turns(rounds[r].matches, rounds[r].outcome, BlackAfter(rounds[..r])).polls[i]
  }

  /** The pollster failed permanently for the resource at this place of the run. */
  ghost predicate FailedAt(rounds: seq<Round>, r: nat, i: nat, x: Resource) {
    && r < |rounds| && i < |rounds[r].matches|
    && var polled := Turns(rounds[r].matches, rounds[r].outcome, BlackAfter(rounds[..r])).polls[i];
       polled != [] && var failed := rounds[r].outcome(i, polled); failed.Some? && x in failed.value
  }

  // What the blacklists have, in terms of failures.

  /** In a cycle the turn i fails permanently for the resource, in the context that the key names. */
  ghost predicate FailsIn(matches: seq<Match>, outcome: Outcome, black: Lists, i: nat, key: string, x: Resource) {
    && i < |matches| && matches[i].source + "-" + matches[i].pollster == key
    && var polled := Turns(matches, outcome, black).polls[i];
       polled != [] && var failed := outcome(i, polled); failed.Some? && x in failed.value
  }

  ghost predicate FailsBefore(matches: seq<Match>, outcome: Outcome, black: Lists, n: nat, key: string, x: Resource) {
    exists i: nat :: i < n && FailsIn(matches, outcome, black, i, key, x)
  }

  lemma FailsInPrefix(matches: seq<Match>, outcome: Outcome, black: Lists, n: nat, i: nat, key: string, x: Resource)
    requires i < n <= |matches|
    ensures FailsIn(matches[..n], outcome, black, i, key, x) <==> FailsIn(matches, outcome, black, i, key, x)
  {
    EarlierTurns(matches, outcome, black, i);
    EarlierTurns(matches[..n], outcome, black, i);
    assert matches[..n][..i + 1] == matches[..i + 1];
  }

  lemma FailsBeforePrefix(matches: seq<Match>, outcome: Outcome, black: Lists, n: nat, key: string, x: Resource)
    requires n <= |matches|
    ensures FailsBefore(matches[..n], outcome, black, n, key, x) <==> FailsBefore(matches, outcome, black, n, key, x)
  {
    forall i: nat | i < n
      ensures FailsIn(matches[..n], outcome, black, i, key, x) <==> FailsIn(matches, outcome, black, i, key, x)
    {
      FailsInPrefix(matches, outcome, black, n, i, key, x);
    }
  }

  lemma TurnBlacklists(m: Match, outcome: Outcome, c: Cycle, key: string, x: Resource)
    ensures var polled := Turn(m, outcome, c).polls[|c.polls|];
            var failed := outcome(|c.polls|, polled);
            x in ListAt(Turn(m, outcome, c).black, key) <==>
              || x in ListAt(c.black, key)
              || (m.source + "-" + m.pollster == key && polled != [] && failed.Some? && x in failed.value)
  {
  }

  /** The blacklist of a key, within a cycle, has what it had before and what has failed since. */
  lemma {:induction false} TurnsBlacklist(matches: seq<Match>, outcome: Outcome, black: Lists, key: string, x: Resource)
    ensures x in ListAt(Turns(matches, outcome, black).black, key) <==>
              x in ListAt(black, key) || FailsBefore(matches, outcome, black, |matches|, key, x)
  {
    if matches != [] {
      var n := |matches| - 1;
      TurnsBlacklist(matches[..n], outcome, black, key, x);
      FailsBeforePrefix(matches, outcome, black, n, key, x);
      TurnBlacklists(matches[n], outcome, Turns(matches[..n], outcome, black), key, x);
      assert FailsBefore(matches, outcome, black, n + 1, key, x) <==>
               FailsBefore(matches, outcome, black, n, key, x) || FailsIn(matches, outcome, black, n, key, x);
    }
  }

  /** The resource has failed in the context that the key names, in a cycle before the q-th, or in it before
      the turn j. */
  ghost predicate HasFailed(rounds: seq<Round>, q: nat, j: nat, key: string, x: Resource) {
    exists r: nat, i: nat :: FailedAt(rounds, r, i, x) && (r < q || (r == q && i < j))
                             && rounds[r].matches[i].source + "-" + rounds[r].matches[i].pollster == key
  }

  lemma FailedInRound(rounds: seq<Round>, r: nat, i: nat, key: string, x: Resource)
    requires r < |rounds|
    ensures FailsIn(rounds[r].matches, rounds[r].outcome, BlackAfter(rounds[..r]), i, key, x) <==>
              && FailedAt(rounds, r, i, x)
              && rounds[r].matches[i].source + "-" + rounds[r].matches[i].pollster == key
  {
  }

  lemma FailedAtPrefix(rounds: seq<Round>, q: nat, r: nat, i: nat, x: Resource)
    requires r < q <= |rounds|
    ensures FailedAt(rounds[..q], r, i, x) <==> FailedAt(rounds, r, i, x)
  {
    assert rounds[..q][..r] == rounds[..r];
  }

  lemma HasFailedPrefix(rounds: seq<Round>, q: nat, key: string, x: Resource)
    requires q <= |rounds|
    ensures HasFailed(rounds[..q], q, 0, key, x) <==> HasFailed(rounds, q, 0, key, x)
  {
    forall r: nat, i: nat | r < q
      ensures FailedAt(rounds[..q], r, i, x) <==> FailedAt(rounds, r, i, x)
    {
      FailedAtPrefix(rounds, q, r, i, x);
    }
  }

  lemma FailedEarlierOrInRound(rounds: seq<Round>, q: nat, j: nat, key: string, x: Resource)
    requires q < |rounds| && j <= |rounds[q].matches|
    ensures HasFailed(rounds, q, j, key, x) <==>
              || HasFailed(rounds, q, 0, key, x)
              || FailsBefore(rounds[q].matches, rounds[q].outcome, BlackAfter(rounds[..q]), j, key, x)
  {
    forall i: nat
      ensures FailsIn(rounds[q].matches, rounds[q].outcome, BlackAfter(rounds[..q]), i, key, x) <==>
                && FailedAt(rounds, q, i, x)
                && rounds[q].matches[i].source + "-" + rounds[q].matches[i].pollster == key
    {
      FailedInRound(rounds, q, i, key, x);
    }
  }

  lemma NextRound(rounds: seq<Round>, key: string, x: Resource)
    requires rounds != []
    ensures HasFailed(rounds, |rounds|, 0, key, x) <==>
              HasFailed(rounds, |rounds| - 1, |rounds[|rounds| - 1].matches|, key, x)
  {
  }

  lemma {:induction false} BlackAfterExactly(rounds: seq<Round>, key: string, x: Resource)
    ensures x in ListAt(BlackAfter(rounds), key) <==> HasFailed(rounds, |rounds|, 0, key, x)
  {
    if rounds != [] {
      var n := |rounds| - 1;
      BlackAfterExactly(rounds[..n], key, x);
      HasFailedPrefix(rounds, n, key, x);
      var last := rounds[n];
      TurnsBlacklist(last.matches, last.outcome, BlackAfter(rounds[..n]), key, x);
      FailedEarlierOrInRound(rounds, n, |last.matches|, key, x);
      NextRound(rounds, key, x);
    }
  }

  /** Over all cycles: before a turn the blacklist of a key has exactly the resources for which a pollster has
      failed permanently in the context of that key. */
  lemma BlacklistedExactly(rounds: seq<Round>, q: nat, j: nat, key: string, x: Resource)
    requires q < |rounds| && j <= |rounds[q].matches|
    ensures x in ListAt(Turns(rounds[q].matches[..j], rounds[q].outcome, BlackAfter(rounds[..q])).black, key) <==>
              HasFailed(rounds, q, j, key, x)
  {
    var round, black := rounds[q], BlackAfter(rounds[..q]);
    BlackAfterExactly(rounds[..q], key, x);
    HasFailedPrefix(rounds, q, key, x);
    TurnsBlacklist(round.matches[..j], round.outcome, black, key, x);
    FailsBeforePrefix(round.matches, round.outcome, black, j, key, x);
    FailedEarlierOrInRound(rounds, q, j, key, x);
  }

  /** In every cycle a pollster is given exactly those of its candidates, each once, that no earlier match of its
      name lists and for which it has not failed permanently before in the context of that source. */
  lemma PolledExactly(rounds: seq<Round>, q: nat, j: nat)
    requires q < |rounds| && j < |rounds[q].matches|
    ensures var m := rounds[q].matches[j];
            var polled := Turns(rounds[q].matches, rounds[q].outcome, BlackAfter(rounds[..q])).polls[j];
            && NoRepeats(polled)
            && forall x :: x in polled <==> (
                 && x in m.candidates && !ListedBefore(rounds[q].matches, j, m.pollster, x)
                 && !HasFailed(rounds, q, j, m.source + "-" + m.pollster, x))
  {
    var round, m := rounds[q], rounds[q].matches[j];
    TurnPollsExactly(round.matches, round.outcome, BlackAfter(rounds[..q]), j);
    forall x
      ensures x in ListAt(Turns(round.matches[..j], round.outcome, BlackAfter(rounds[..q])).black, Key(m)) <==>
                HasFailed(rounds, q, j, m.source + "-" + m.pollster, x)
    {
      BlacklistedExactly(rounds, q, j, Key(m), x);
    }
  }

  /** In the q-th cycle each match is given, each once, those of its candidates that no earlier match of its name
      lists and for which it has not failed. */
  ghost predicate PollsAsWanted(rounds: seq<Round>, q: nat, polls: seq<seq<Resource>>) {
    && q < |rounds| && |polls| == |rounds[q].matches|
    && (forall j: nat :: j < |polls| ==> NoRepeats(polls[j]))
    && forall j: nat, x :: j < |polls| ==>
         var m := rounds[q].matches[j];
         (x in polls[j] <==>
           && x in m.candidates && !ListedBefore(rounds[q].matches, j, m.pollster, x)
           && !HasFailed(rounds, q, j, m.source + "-" + m.pollster, x))
  }

  lemma RoundPolls(rounds: seq<Round>, q: nat)
    requires q < |rounds|
    ensures PollsAsWanted(rounds, q, Turns(rounds[q].matches, rounds[q].outcome, BlackAfter(rounds[..q])).polls)
  {
    forall j: nat | j < |rounds[q].matches| {
      PolledExactly(rounds, q, j);
    }
  }

  /** A listed resource is given to the first match that lists it, unless that has failed for it: then to none. */
  lemma PolledByFirstOrNone(rounds: seq<Round>, q: nat, i: nat, x: Resource)
    requires q < |rounds| && i < |rounds[q].matches| && x in rounds[q].matches[i].candidates
    requires !ListedBefore(rounds[q].matches, i, rounds[q].matches[i].pollster, x)
    ensures var m := rounds[q].matches[i];
            && (PolledAt(rounds, q, i, x) <==> !HasFailed(rounds, q, i, m.source + "-" + m.pollster, x))
            && forall j: nat :: j < |rounds[q].matches| && j != i && rounds[q].matches[j].pollster == m.pollster ==>
                 !PolledAt(rounds, q, j, x)
  {
    var matches := rounds[q].matches;
    PolledExactly(rounds, q, i);
    assert forall j :: 0 <= j < i && matches[j].pollster == matches[i].pollster ==> x !in matches[j].candidates;
    forall j: nat | j < |matches| && j != i && matches[j].pollster == matches[i].pollster
      ensures !PolledAt(rounds, q, j, x)
    {
      PolledExactly(rounds, q, j);
      assert j > i ==> ListedBefore(matches, j, matches[j].pollster, x);
    }
  }

  /** So a resource for which a pollster failed permanently is never given to that pollster in the context
      of that source again, in the same cycle or any later one. */
  lemma FailedIsNeverPolledAgain(rounds: seq<Round>, r: nat, i: nat, q: nat, j: nat, x: Resource)
    requires FailedAt(rounds, r, i, x)
    requires q < |rounds| && j < |rounds[q].matches| && (r < q || (r == q && i < j))
    requires Key(rounds[q].matches[j]) == Key(rounds[r].matches[i])
    ensures !PolledAt(rounds, q, j, x)
  {
    PolledExactly(rounds, q, j);
    var m := rounds[q].matches[j];
    assert HasFailed(rounds, q, j, m.source + "-" + m.pollster, x);
  }

  // ---------------------------------------------------------------- PollingTask

  /** The polling task, with the cycles it has gone through. */
  class PollingTask {
    var blacklists: Lists
    ghost var rounds: seq<Round>

    constructor ()
      ensures Valid() && rounds == []
    {
      blacklists, rounds := map[], [];
    }

    ghost predicate Valid()
      reads this
    {
      blacklists == BlackAfter(rounds)
    }

    /** `poll_and_notify`, returning what each match was given. */
    method PollAndNotify(matches: seq<Match>, outcome: Outcome) returns (polls: seq<seq<Resource>>)
      requires Valid()
      modifies this
      ensures Valid() && rounds == old(rounds) + [Round(matches, outcome)]
      ensures PollsAsWanted(rounds, |rounds| - 1, polls)
    {
      var pollHistory: Lists := map[];
      polls := [];
      for i := 0 to |matches|
        invariant Turns(matches[..i], outcome, old(blacklists)) == Cycle(pollHistory, blacklists, polls)
        invariant rounds == old(rounds)
      {
        var m := matches[i];
        assert matches[..i + 1][..i] == matches[..i];
        var history := ListAt(pollHistory, m.pollster);
        var pollingResources := [];
        var blackRes := ListAt(blacklists, Key(m));
        history, pollingResources := Choose(m.candidates, history, blackRes);
        pollHistory := pollHistory[m.pollster := history];
        if pollingResources != [] {
          var failed := outcome(|polls|, pollingResources);
          if failed.Some? {
            blacklists := blacklists[Key(m) := blackRes + failed.value];
          }
        }
        polls := polls + [pollingResources];
      }
      assert matches[..|matches|] == matches;
      rounds := rounds + [Round(matches, outcome)];
      assert rounds[..|rounds| - 1] == old(rounds);
      RoundPolls(rounds, |rounds| - 1);
    }

    /** The loop over the candidates of one match. */
    static method Choose(candidates: seq<Resource>, before: seq<Resource>, blackRes: seq<Resource>)
      returns (history: seq<Resource>, pollingResources: seq<Resource>)
      ensures history == before + Unseen(candidates, before)
      ensures pollingResources == Without(Unseen(candidates, before), blackRes)
    {
      history, pollingResources := before, [];
      ghost var all := Unseen(candidates, before);
      for i := 0 to |candidates|
        invariant before + all == history + Unseen(candidates[i..], history)
        invariant Without(all, blackRes) == pollingResources + Without(Unseen(candidates[i..], history), blackRes)
      {
        var x := candidates[i];
        UnseenStep(candidates, i, history, pollingResources, blackRes);
        if x !in history {
          history := history + [x];
          if x !in blackRes {
            pollingResources := pollingResources + [x];
          }
        }
      }
    }
  }

  lemma UnseenStep(candidates: seq<Resource>, i: nat, history: seq<Resource>, polled: seq<Resource>,
                   black: seq<Resource>)
    requires i < |candidates|
    ensures var x := candidates[i];
            var history' := if x in history then history else history + [x];
            var polled' := if x in history || x in black then polled else polled + [x];
            && history + Unseen(candidates[i..], history) == history' + Unseen(candidates[i + 1..], history')
            && polled + Without(Unseen(candidates[i..], history), black)
            == polled' + Without(Unseen(candidates[i + 1..], history'), black)
  {
    var x := candidates[i];
    assert candidates[i..][0] == x && candidates[i..][1..] == candidates[i + 1..];
    if x !in history {
      var rest := Unseen(candidates[i + 1..], history + [x]);
      Regroup(history, [x], rest);
      WithoutFirst(x, rest, black);
      Regroup(polled, [x], Without(rest, black));
    }
  }

  lemma WithoutFirst(x: Resource, rest: seq<Resource>, black: seq<Resource>)
    ensures Without([x] + rest, black) == if x in black then Without(rest, black) else [x] + Without(rest, black)
  {
    assert ([x] + rest)[1..] == rest;
    assert [] + Without(rest, black) == Without(rest, black);
  }
}
