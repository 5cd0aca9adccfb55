/**
 The status of a remote document over runs of observations (src/aruba-inbound.ts) and of the
 submission that mirrors it (src/aruba-submission-state.ts).
 */
module RemoteStatus {
  import opened Options
  import opened Sorting

  datatype Status = SUBMITTED | SDI_PROCESSING | DELIVERED | NOT_DELIVERED | REJECTED | UNKNOWN

  datatype Transition = APPLY | IGNORE_STALE | CONFLICT

  predicate Terminal(s: Status) {
    s in {DELIVERED, NOT_DELIVERED, REJECTED}
  }

  function Progress(s: Status): nat {
    match s
    case SDI_PROCESSING => 1
    case SUBMITTED => 2
    case _ => 0
  }

  function RemoteStatusTransition(current: Option<Status>, observed: Status): Transition {
    if current.None? || current.value == observed then APPLY
    else if current.value == UNKNOWN then APPLY
    else if Terminal(current.value) then
      if Terminal(observed) || observed == UNKNOWN then CONFLICT else IGNORE_STALE
    else if observed == UNKNOWN then APPLY
    else if Terminal(observed) then APPLY
    else if Progress(observed) >= Progress(current.value) then APPLY else IGNORE_STALE
  }

  /** The stored status after an observation: only APPLY replaces it. */
  function Store(current: Option<Status>, observed: Status): Option<Status> {
    if RemoteStatusTransition(current, observed) == APPLY then Some(observed) else current
  }

  function Run(current: Option<Status>, observed: seq<Status>): Option<Status> {
    if observed == [] then current else Store(Run(current, observed[..|observed| - 1]), observed[|observed| - 1])
  }

  lemma {:induction false} TerminalIsFinal(s: Status, observed: seq<Status>)
    requires Terminal(s)
    ensures Run(Some(s), observed) == Some(s)
  {
    if observed == [] {
    } else {
      TerminalIsFinal(s, observed[..|observed| - 1]);
    }
  }

  // ---------- Where a run ends ----------

  /** SDI_PROCESSING < SUBMITTED < any terminal status. */
  function Level(s: Status): nat {
    match s
    case UNKNOWN => 0
    case SDI_PROCESSING => 1
    case SUBMITTED => 2
    case DELIVERED => 3
    case NOT_DELIVERED => 3
    case REJECTED => 3
  }

  /** Against a final status another one, or UNKNOWN, is a conflict; a lower status in progress is
      stale; whatever else is observed is stored. */
  lemma TransitionIs(current: Option<Status>, observed: Status)
    ensures RemoteStatusTransition(current, observed) ==
            if current.None? || current.value == observed then APPLY
            else if Level(current.value) == 3 && Level(observed) in {0, 3} then CONFLICT
            else if Level(observed) != 0 && Level(observed) < Level(current.value) then IGNORE_STALE
            else APPLY
  {
  }

  /** The first terminal status is kept for good. */
  ghost predicate FirstTerminal(observed: seq<Status>, s: Status) {
    exists k :: 0 <= k < |observed| && observed[k] == s && Terminal(s) &&
      forall i :: 0 <= i < k ==> !Terminal(observed[i])
  }

  ghost predicate NoTerminal(observed: seq<Status>) {
    forall i :: 0 <= i < |observed| ==> !Terminal(observed[i])
  }

  /** What follows the UNKNOWN before `k` keeps its maximum; if nothing follows, UNKNOWN stays. */
  ghost predicate ProgressFrom(observed: seq<Status>, s: Status, k: nat) {
    k <= |observed| && (k == 0 || observed[k - 1] == UNKNOWN) &&
    (forall i :: k <= i < |observed| ==> observed[i] != UNKNOWN && Level(observed[i]) <= Level(s)) &&
    if k == |observed| then k > 0 && s == UNKNOWN else exists j :: k <= j < |observed| && observed[j] == s
  }

  ghost predicate LastProgress(observed: seq<Status>, s: Status) {
    exists k :: ProgressFrom(observed, s, k)
  }

  lemma OneObservation(s: Status)
    ensures Run(None, [s]) == Some(s)
    ensures if NoTerminal([s]) then LastProgress([s], s) else FirstTerminal([s], s)
  {
    assert Run(None, [s][..0]) == None;
    assert [s][0] == s;
    if !Terminal(s) {
      assert ProgressFrom([s], s, if s == UNKNOWN then 1 else 0);
    }
  }

  /** The end of every run of observations of a new document: the first terminal status if
      there is one, and otherwise the furthest status since the last UNKNOWN. */
  lemma {:induction false} RunEnds(observed: seq<Status>)
    requires observed != []
    ensures Run(None, observed).Some?
    ensures if NoTerminal(observed) then LastProgress(observed, Run(None, observed).value)
            else FirstTerminal(observed, Run(None, observed).value)
  {
    var n := |observed| - 1;
    var init, last := observed[..n], observed[n];
    assert observed == init + [last];
    if init == [] {
      OneObservation(last);
    } else {
      RunEnds(init);
      var s := Run(None, init).value;
      if NoTerminal(init) {
        var k: nat :| ProgressFrom(init, s, k);
        if Terminal(last) {
          assert observed[n] == last;
        } else {
          var _ := ProgressExtends(init, last, s, k);
        }
      } else {
        TerminalExtends(init, last, s);
      }
    }
  }

  lemma TerminalExtends(init: seq<Status>, last: Status, s: Status)
    requires FirstTerminal(init, s)
    ensures FirstTerminal(init + [last], s) && Store(Some(s), last) == Some(s)
  {
    var k :| 0 <= k < |init| && init[k] == s && Terminal(s) && forall i :: 0 <= i < k ==> !Terminal(init[i]);
    assert (init + [last])[k] == s;
  }

  lemma ProgressExtends(init: seq<Status>, last: Status, s: Status, k: nat) returns (k': nat)
    requires NoTerminal(init) && ProgressFrom(init, s, k) && !Terminal(last)
    ensures ProgressFrom(init + [last], Store(Some(s), last).value, k')
  {
    var all := init + [last];
    k' := if last == UNKNOWN then |all| else k;
    assert all[|init|] == last;
    if last != UNKNOWN && k < |init| {
      var j :| k <= j < |init| && init[j] == s;
      assert all[j] == s;
    }
  }

  // ---------- When the order of observations does not matter ----------

  ghost predicate OrderFree(observed: seq<Status>) {
    forall b :: multiset(b) == multiset(observed) ==> Run(None, b) == Run(None, observed)
  }

  /** At most one terminal value, and no UNKNOWN mixed with statuses in progress only. */
  ghost predicate Settled(observed: seq<Status>) {
    (forall s, t :: s in observed && t in observed && Terminal(s) && Terminal(t) ==> s == t) &&
    ((exists s :: s in observed && Terminal(s)) || UNKNOWN !in observed || forall s :: s in observed ==> s == UNKNOWN)
  }

  /** A settled run ends with its highest status, whatever its order and repetitions. */
  lemma SettledRunEndsHighest(observed: seq<Status>)
    requires observed != [] && Settled(observed)
    ensures Run(None, observed).Some? && Run(None, observed).value in observed
    ensures forall s :: s in observed ==> Level(s) <= Level(Run(None, observed).value)
    ensures forall s :: s in observed && Level(s) == Level(Run(None, observed).value) ==> s == Run(None, observed).value
  {
    RunEnds(observed);
    var end := Run(None, observed).value;
    if NoTerminal(observed) {
      var k: nat :| ProgressFrom(observed, end, k);
      assert k > 0 ==> observed[k - 1] == UNKNOWN;
      assert k > 0 ==> UNKNOWN in observed;
      assert forall i :: 0 <= i < |observed| ==> observed[i] in observed;
    } else {
      var k :| 0 <= k < |observed| && observed[k] == end && Terminal(end);
    }
  }

  /** Runs over the same statuses, in any order and multiplicity, end alike when settled. */
  lemma SettledRunsAgree(a: seq<Status>, b: seq<Status>)
    requires Settled(a) && (forall s :: s in a <==> s in b)
    ensures Run(None, a) == Run(None, b)
  {
    if a == [] {
      assert forall i :: 0 <= i < |b| ==> b[i] in b;
    } else {
      assert a[0] in b;
      SettledRunEndsHighest(a);
      SettledRunEndsHighest(b);
    }
  }

  lemma MoveTo(observed: seq<Status>, s: Status) returns (rest: seq<Status>)
    requires s in observed
    ensures multiset([s] + rest) == multiset(observed) == multiset(rest + [s])
  {
    var i :| 0 <= i < |observed| && observed[i] == s;
    rest := observed[..i] + observed[i + 1..];
    assert observed == observed[..i] + [s] + observed[i + 1..];
  }

  lemma FirstWins(s: Status, rest: seq<Status>)
    requires Terminal(s)
    ensures Run(None, [s] + rest) == Some(s)
  {
    var all := [s] + rest;
    RunEnds(all);
    assert all[0] == s;
    assert !NoTerminal(all);
  }

  lemma LastShows(rest: seq<Status>, s: Status)
    requires NoTerminal(rest) && !Terminal(s)
    ensures (Run(None, rest + [s]) == Some(UNKNOWN)) <==> s == UNKNOWN
  {
    var all := rest + [s];
    RunEnds(all);
    assert all[|rest|] == s;
  }

  lemma TwoTerminalsMatter(observed: seq<Status>, s: Status, t: Status)
    requires s in observed && t in observed && Terminal(s) && Terminal(t) && s != t
    ensures !OrderFree(observed)
  {
    hide Run, Terminal;
    var x := MoveTo(observed, s);
    var y := MoveTo(observed, t);
    FirstWins(s, x);
    FirstWins(t, y);
  }

  lemma StayingPart(rest: seq<Status>, s: Status, observed: seq<Status>)
    requires multiset(rest + [s]) == multiset(observed) && forall t :: t in observed ==> !Terminal(t)
    ensures NoTerminal(rest)
  {
    SameMembers(rest + [s], observed);
    assert forall i :: 0 <= i < |rest| ==> rest[i] in rest + [s];
  }

  lemma UnknownMatters(observed: seq<Status>, s: Status)
    requires s in observed && s != UNKNOWN && UNKNOWN in observed && forall t :: t in observed ==> !Terminal(t)
    ensures !OrderFree(observed)
  {
    hide Run;
    var x := MoveTo(observed, s);
    var y := MoveTo(observed, UNKNOWN);
    StayingPart(x, s, observed);
    StayingPart(y, UNKNOWN, observed);
    LastShows(x, s);
    LastShows(y, UNKNOWN);
  }

  /** The end of a run is independent of its order exactly when the run is settled. */
  lemma OrderFreeIffSettled(observed: seq<Status>)
    ensures OrderFree(observed) <==> Settled(observed)
  {
    hide Run, Terminal;
    if Settled(observed) {
      forall b | multiset(b) == multiset(observed)
        ensures Run(None, b) == Run(None, observed)
      {
        SameMembers(b, observed);
        SettledRunsAgree(observed, b);
      }
    } else if s, t :| s in observed && t in observed && Terminal(s) && Terminal(t) && s != t {
      TwoTerminalsMatter(observed, s, t);
    } else {
      var s :| s in observed && s != UNKNOWN;
      UnknownMatters(observed, s);
    }
  }

  // ---------- The submission ----------

  datatype SubmissionStatus = ARUBA_ACCEPTED | UNKNOWN_REMOTE_STATE | Remote(status: Status)

  datatype SubmissionTransition = SAME | ADVANCE | STALE | CONFLICTING

  function ArubaSubmissionTransition(current: SubmissionStatus, observed: Status): SubmissionTransition {
    if current == Remote(observed) then SAME
    else if !current.Remote? then ADVANCE
    else
      match RemoteStatusTransition(Some(current.status), observed)
      case APPLY => ADVANCE
      case CONFLICT => CONFLICTING
      case IGNORE_STALE => STALE
  }

  /** An observation repeats the submission's status, or conflicts with it or is stale as it would
      be for the remote document, or else advances it. */
  lemma SubmissionTransitionIs(current: SubmissionStatus, observed: Status)
    ensures ArubaSubmissionTransition(current, observed) == SAME <==> current == Remote(observed)
    ensures ArubaSubmissionTransition(current, observed) == CONFLICTING <==>
            current.Remote? && current.status != observed && Level(current.status) == 3 && Level(observed) in {0, 3}
    ensures ArubaSubmissionTransition(current, observed) == STALE <==>
            current.Remote? && 0 < Level(observed) < Level(current.status)
  {
  }

  /** The committed status of a submission: only ADVANCE replaces it. */
  function Commit(current: SubmissionStatus, observed: Status): SubmissionStatus {
    if ArubaSubmissionTransition(current, observed) == ADVANCE then Remote(observed) else current
  }

  function Submit(current: SubmissionStatus, observed: seq<Status>): SubmissionStatus {
    if observed == [] then current else Commit(Submit(current, observed[..|observed| - 1]), observed[|observed| - 1])
  }

  /** A submission stands for a remote document: before any readback, for an unobserved one. */
  function Mirrored(current: SubmissionStatus): Option<Status> {
    if current.Remote? then Some(current.status) else None
  }

  /** Every submission run mirrors the remote run on the same observations, and at each step
      both report a conflict, or both a stale status, or both follow. */
  lemma {:induction false} SubmissionMirrorsRemote(current: SubmissionStatus, observed: seq<Status>, next: Status)
    ensures Mirrored(Submit(current, observed)) == Run(Mirrored(current), observed)
    ensures var mine, theirs := ArubaSubmissionTransition(Submit(current, observed), next),
                                RemoteStatusTransition(Run(Mirrored(current), observed), next);
            (mine == CONFLICTING <==> theirs == CONFLICT) && (mine == STALE <==> theirs == IGNORE_STALE)
  {
    if observed == [] {
    } else {
      SubmissionMirrorsRemote(current, observed[..|observed| - 1], observed[|observed| - 1]);
    }
  }
}
