/** The durable counter's upsert under concurrency: `_mirror` in app/services/quota.py.

    Many workers add one to the same user, key and window. Each updates; on finding no row it inserts;
    on losing the insert to another worker it rolls back and updates again. An update holds the row,
    and a pending insert holds the unique key, until its transaction ends.
 */
module UsageMirror {
  import opened Models

  type Worker = nat

  datatype Phase =
    | Start         // about to run the update
    | Updated       // the update matched; not committed yet
    | Missed        // the update matched nothing
    | Inserted      // the insert is pending
    | Collided      // another worker's insert won; about to update again
    | Done
    | Abandoned     // failed anywhere: logged and swallowed
  {
    predicate Holds() { Updated? || Inserted? }
  }

  /** `rows` is every committed row for this user, key and window, by its count. */
  datatype State = State(rows: seq<nat>, holder: Option<Worker>, workers: map<Worker, Phase>)

  datatype Step =
    | Enters(w: Worker)
    | Updates(w: Worker)
    | TriesInsert(w: Worker)
    | Commits(w: Worker)
    | Fails(w: Worker)

  predicate Enabled(s: State, step: Step) {
    match step
    case Enters(w) => w !in s.workers
    case Updates(w) =>
      w in s.workers && (s.workers[w].Start? || s.workers[w].Collided?) && (s.rows != [] ==> s.holder.None?)
    case TriesInsert(w) => w in s.workers && s.workers[w].Missed? && s.holder.None?
    case Commits(w) => w in s.workers && s.workers[w].Holds()
    case Fails(w) => w in s.workers && !s.workers[w].Done?
  }

  function Freed(s: State, w: Worker): Option<Worker> {
    if s.holder == Some(w) then None else s.holder
  }

  function Apply(s: State, step: Step): State
    requires Enabled(s, step)
  {
    match step
    case Enters(w) => s.(workers := s.workers[w := Start])
    case Updates(w) =>
      if s.rows != [] then s.(holder := Some(w), workers := s.workers[w := Updated])
      else if s.workers[w].Start? then s.(workers := s.workers[w := Missed])
      else s.(workers := s.workers[w := Done])      // the second update's row count is not looked at
    case TriesInsert(w) =>
      if s.rows != [] then s.(workers := s.workers[w := Collided])
      else s.(holder := Some(w), workers := s.workers[w := Inserted])
    case Commits(w) =>
      s.(rows := if s.workers[w].Inserted? then s.rows + [1]
                 else seq(|s.rows|, i requires 0 <= i < |s.rows| => s.rows[i] + 1),
         holder := Freed(s, w),
         workers := s.workers[w := Done])
    case Fails(w) => s.(holder := Freed(s, w), workers := s.workers[w := Abandoned])
  }

  ghost function Finished(s: State): set<Worker> {
    set w | w in s.workers && s.workers[w].Done?
  }

  ghost predicate Inv(s: State) {
    && |s.rows| <= 1
    && (s.rows == [] ==> Finished(s) == {})
    && (s.rows != [] ==> s.rows[0] == |Finished(s)|)
    && (forall w :: w in s.workers ==>
          && (s.workers[w].Holds() <==> s.holder == Some(w))
          && (s.workers[w].Inserted? ==> s.rows == [])
          && (s.workers[w].Updated? || s.workers[w].Collided? ==> s.rows != []))
    && (s.holder.Some? ==> s.holder.value in s.workers)
  }

  lemma StepKeepsInv(s: State, step: Step)
    requires Inv(s) && Enabled(s, step)
    ensures Inv(Apply(s, step))
  {
    var t := Apply(s, step);
    if step.Commits? {
      assert Finished(t) == Finished(s) + {step.w};
    } else {
      assert Finished(t) == Finished(s);
    }
  }

  ghost predicate Run(s: State, steps: seq<Step>, t: State)
    decreases |steps|
  {
    if steps == [] then s == t
    else Enabled(s, steps[0]) && Run(Apply(s, steps[0]), steps[1..], t)
  }

  lemma {:induction false} RunKeepsInv(s: State, steps: seq<Step>, t: State)
    requires Inv(s) && Run(s, steps, t)
    ensures Inv(t)
    decreases |steps|
  {
    if steps != [] {
      StepKeepsInv(s, steps[0]);
      RunKeepsInv(Apply(s, steps[0]), steps[1..], t);
    }
  }

  /** Nobody has counted anything yet. */
  const EMPTY := State([], None, map[])

  lemma EmptyIsInv()
    ensures Inv(EMPTY)
  {
  }

  /** No interleaving loses an increment or leaves a second row: in every state reachable from the empty
      table the one row counts exactly the workers that finished without failing. */
  lemma UpsertLosesNothing(steps: seq<Step>, t: State)
    requires Run(EMPTY, steps, t)
    ensures |t.rows| <= 1
    ensures |Finished(t)| == if t.rows == [] then 0 else t.rows[0]
  {
    EmptyIsInv();
    RunKeepsInv(EMPTY, steps, t);
  }
}
