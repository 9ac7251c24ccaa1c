/**
 The pause gate on the host side: a depth counter per process and one file that every
 node orchestrator looks for before it disturbs its node.
 */
module PauseControl {
  import opened Options

  // ---- one process ----

  datatype Gate = Gate(depth: int, reason: Option<string>, file: bool)

  const OPEN := Gate(0, None, false)

  function Paused(g: Gate, why: Option<string>): Gate
  {
    if g.depth == 0 then Gate(1, why, true) else g.(depth := g.depth + 1)
  }

  function Resumed(g: Gate): Gate
  {
    if g.depth <= 1 then OPEN else g.(depth := g.depth - 1)
  }

  class PauseFile {
    var present: bool

    constructor ()
      ensures !present
    {
      present := false;
    }
  }

  class Orchestrators {
    const file: PauseFile
    var depth: int
    var reason: Option<string>

    constructor (file: PauseFile)
      ensures this.file == file && depth == 0 && reason == None
    {
      this.file := file;
      depth, reason := 0, None;
    }

    ghost function State(): Gate
      reads this, file
    {
      Gate(depth, reason, file.present)
    }

    method Pause(why: Option<string>)
      modifies this, file
      ensures State() == Paused(old(State()), why)
    {
      depth := depth + 1;
      if depth == 1 {
        reason := why;
        file.present := true;
      }
    }

    method Resume()
      modifies this, file
      ensures State() == Resumed(old(State()))
    {
      depth := if depth - 1 > 0 then depth - 1 else 0;
      if depth == 0 {
        file.present := false;
        reason := None;
      }
    }
  }

  // ---- tasks that bracket their work ----

  datatype Event = Enter(task: nat, why: Option<string>) | Leave(task: nat)

  function Next(g: Gate, e: Event): Gate
  {
    match e
    case Enter(_, why) => Paused(g, why)
    case Leave(_) => Resumed(g)
  }

  function Play(events: seq<Event>): Gate
  {
    if |events| == 0 then OPEN else Next(Play(events[..|events| - 1]), events[|events| - 1])
  }

  // The tasks inside a bracket after the events, once for every bracket they are in
  function Inside(events: seq<Event>): multiset<nat>
  {
    if |events| == 0 then multiset{}
    else
      var before := Inside(events[..|events| - 1]);
      match events[|events| - 1]
      case Enter(t, _) => before + multiset{t}
      case Leave(t) => before - multiset{t}
  }

  // Every task leaves only brackets it has entered; tasks may interleave in any way
  ghost predicate Bracketed(events: seq<Event>)
  {
    forall i :: 0 <= i < |events| && events[i].Leave? ==> events[i].task in Inside(events[..i])
  }

  // The reason given by whoever found nobody inside, while somebody still is
  function OpeningReason(events: seq<Event>): Option<string>
  {
    if |events| == 0 || |Inside(events)| == 0 then None
    else
      var before := events[..|events| - 1];
      if |Inside(before)| == 0 && events[|events| - 1].Enter?
      then events[|events| - 1].why
      else OpeningReason(before)
  }

  /** For any interleaving of tasks that each bracket their work, nested or not: the counter
      is the number of open brackets, the file exists exactly while somebody is inside, and
      the remembered reason is that of the one who closed the gate. */
  lemma {:induction false} GateFollowsTheTasks(events: seq<Event>)
    requires Bracketed(events)
    ensures Play(events) == Gate(|Inside(events)|, OpeningReason(events), |Inside(events)| > 0)
  {
    var n := |events|;
    if n > 0 {
      var before := events[..n - 1];
      forall i | 0 <= i < |before| && before[i].Leave?
        ensures before[i].task in Inside(before[..i])
      {
        assert before[..i] == events[..i] && before[i] == events[i];
      }
      GateFollowsTheTasks(before);
      if events[n - 1].Leave? {
        assert events[n - 1].task in Inside(before);
      }
    }
  }

  /** The clamp at zero never fires for bracketed tasks. */
  lemma ClampNeverFires(events: seq<Event>, i: nat)
    requires Bracketed(events) && i < |events| && events[i].Leave?
    ensures Play(events[..i]).depth >= 1
  {
    var before := events[..i];
    forall j | 0 <= j < |before| && before[j].Leave?
      ensures before[j].task in Inside(before[..j])
    {
      assert before[..j] == events[..j] && before[j] == events[j];
    }
    GateFollowsTheTasks(before);
    assert events[i].task in Inside(before);
  }

  /** When every task has left, the gate is as it was before the first one entered. */
  lemma OpenWhenAllHaveLeft(events: seq<Event>)
    requires Bracketed(events)
    ensures Inside(events) == multiset{} <==> Play(events) == OPEN
  {
    GateFollowsTheTasks(events);
  }

  // ---- several processes, one file ----

  // Every process counts for itself; the file is common to all of them
  datatype Shared = Shared(depths: seq<nat>, file: bool)

  datatype Move = Pauses(process: nat) | Resumes(process: nat)

  // What process p sees of it; the reason does not matter here
  function View(s: Shared, p: nat): Gate
    requires p < |s.depths|
  {
    Gate(s.depths[p], None, s.file)
  }

  // One process pauses or resumes as if it were alone
  function Moved(s: Shared, m: Move): (t: Shared)
    requires m.process < |s.depths|
    ensures |t.depths| == |s.depths|
  {
    var p := m.process;
    var g := if m.Pauses? then Paused(View(s, p), None) else Resumed(View(s, p));
    Shared(s.depths[p := g.depth], g.file)
  }

  ghost predicate Exact(s: Shared)
  {
    s.file <==> exists p :: 0 <= p < |s.depths| && s.depths[p] > 0
  }

  // m ends the pause of its own process while another process still relies on the file
  ghost predicate Exposes(s: Shared, m: Move)
    requires m.process < |s.depths|
  {
    && m.Resumes? && s.depths[m.process] <= 1
    && exists q :: 0 <= q < |s.depths| && q != m.process && s.depths[q] > 0
  }

  lemma ExactUnlessExposed(s: Shared, m: Move)
    requires m.process < |s.depths| && Exact(s)
    ensures Exact(Moved(s, m)) <==> !Exposes(s, m)
  {
    var p, t := m.process, Moved(s, m);
    if m.Pauses? {
      assert t.depths[p] > 0;
    } else if s.depths[p] > 1 {
      assert t.depths[p] > 0;
    } else if Exposes(s, m) {
      var q :| 0 <= q < |s.depths| && q != p && s.depths[q] > 0;
      assert t.depths[q] > 0;
    }
  }

  // The states that a list of moves goes through
  ghost predicate IsHistory(states: seq<Shared>, moves: seq<Move>)
  {
    && |states| == |moves| + 1
    && forall i :: 0 <= i < |moves| ==>
         moves[i].process < |states[i].depths| && states[i + 1] == Moved(states[i], moves[i])
  }

  /** With several processes the file is exact throughout a run if and only if no process
      ends its own pause while another one is inside. */
  lemma SharedFileIsExactIff(states: seq<Shared>, moves: seq<Move>)
    requires IsHistory(states, moves) && Exact(states[0])
    ensures (forall i :: 0 <= i < |states| ==> Exact(states[i]))
       <==> (forall i :: 0 <= i < |moves| ==> !Exposes(states[i], moves[i]))
  {
    if forall i :: 0 <= i < |states| ==> Exact(states[i]) {
      forall i | 0 <= i < |moves| ensures !Exposes(states[i], moves[i]) {
        assert Exact(states[i]) && Exact(states[i + 1]);
        ExactUnlessExposed(states[i], moves[i]);
      }
    }
    if forall i :: 0 <= i < |moves| ==> !Exposes(states[i], moves[i]) {
      for i := 0 to |moves|
        invariant forall j :: 0 <= j <= i ==> Exact(states[j])
      {
        ExactUnlessExposed(states[i], moves[i]);
      }
    }
  }

  /** Two processes are enough: both pause, one resumes, and the file is gone while the other
      still relies on it. */
  lemma TwoProcessesExpose()
    ensures
      var s := Moved(Moved(Moved(Shared([0, 0], false), Pauses(0)), Pauses(1)), Resumes(0));
      s.depths == [0, 1] && !s.file
  {
    var a := Moved(Shared([0, 0], false), Pauses(0));
    assert a == Shared([1, 0], true);
    var b := Moved(a, Pauses(1));
    assert b == Shared([1, 1], true);
    assert Moved(b, Resumes(0)) == Shared([0, 1], false);
  }
}
