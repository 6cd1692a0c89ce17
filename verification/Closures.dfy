/**
 * The closure forms as steps of a store with a clock (src/lib/remote/closures.remote.ts).
 * Clock and inputs are in milliseconds; the table keeps whole seconds.
 */
module Closures {
  /** `new Date(text)`; an unreadable text compares false with everything. */
  datatype Stamp = Invalid | At(ms: int)

  predicate NotAfter(a: Stamp, b: Stamp) {
    a.At? && b.At? && a.ms <= b.ms
  }

  datatype Closure = Closure(reason: string, startsAt: int, endsAt: int)

  datatype Store = Store(rows: map<string, Closure>, now: int)

  datatype Response = Success | SchemaRejected | EndNotAfterStart | NotFound | PastOrActive | DatabaseRejected

  datatype Step =
    | Create(id: string, reason: string, startsAt: Stamp, endsAt: Stamp)
    | Update(id: string, reason: string, startsAt: Stamp, endsAt: Stamp)
    | Delete(id: string)
    | Tick(ms: nat)

  function Seconds(ms: int): int {
    ms / 1000
  }

  predicate ReasonFits(reason: string) {
    1 <= |reason| <= 255
  }

  /** NOT NULL and the `closure_time_order` check, on the stored seconds. */
  predicate Storable(startsAt: Stamp, endsAt: Stamp) {
    startsAt.At? && endsAt.At? && Seconds(startsAt.ms) < Seconds(endsAt.ms)
  }

  predicate HasStarted(s: Store, id: string)
    requires id in s.rows
  {
    s.rows[id].startsAt * 1000 <= s.now
  }

  function Respond(s: Store, step: Step): Response {
    match step
    case Tick(_) => Success
    case Create(id, reason, startsAt, endsAt) =>
      if !ReasonFits(reason) then SchemaRejected
      else if NotAfter(endsAt, startsAt) then EndNotAfterStart
      else if !Storable(startsAt, endsAt) || id in s.rows then DatabaseRejected
      else Success
    case Update(id, reason, startsAt, endsAt) =>
      if !ReasonFits(reason) then SchemaRejected
      else if id !in s.rows then NotFound
      else if HasStarted(s, id) then PastOrActive
      else if NotAfter(endsAt, startsAt) then EndNotAfterStart
      else if !Storable(startsAt, endsAt) then DatabaseRejected
      else Success
    case Delete(id) =>
      if id !in s.rows then NotFound
      else if HasStarted(s, id) then PastOrActive
      else Success
  }

  function Apply(s: Store, step: Step): Store {
    if Respond(s, step) != Success then s else
    match step
    case Tick(ms) => s.(now := s.now + ms)
    case Delete(id) => s.(rows := s.rows - {id})
    case _ => s.(rows := s.rows[step.id := Closure(step.reason, Seconds(step.startsAt.ms), Seconds(step.endsAt.ms))])
  }

  function Run(s: Store, steps: seq<Step>): Store
    decreases |steps|
  {
    if steps == [] then s else Run(Apply(s, steps[0]), steps[1..])
  }

  ghost predicate InOrder(s: Store) {
    forall id :: id in s.rows ==> s.rows[id].startsAt < s.rows[id].endsAt
  }

  /** In every run each stored closure ends after it starts. */
  lemma {:induction false} RunStaysInOrder(s: Store, steps: seq<Step>)
    requires InOrder(s)
    ensures InOrder(Run(s, steps))
    decreases |steps|
  {
    if steps == [] {
    } else {
      RunStaysInOrder(Apply(s, steps[0]), steps[1..]);
    }
  }

  /** Once a closure has started, no later step of any run changes or deletes it. */
  lemma {:induction false} StartedIsFinal(s: Store, steps: seq<Step>, id: string)
    requires id in s.rows && HasStarted(s, id)
    ensures id in Run(s, steps).rows && Run(s, steps).rows[id] == s.rows[id]
    decreases |steps|
  {
    if steps == [] {
    } else {
      StartedIsFinal(Apply(s, steps[0]), steps[1..], id);
    }
  }

  /** A stored closure can still be changed or deleted exactly while it has not started. */
  lemma OpenIffNotStarted(s: Store, id: string)
    requires id in s.rows
    ensures (exists step :: id !in Apply(s, step).rows || Apply(s, step).rows[id] != s.rows[id]) <==> !HasStarted(s, id)
  {
    if !HasStarted(s, id) {
      assert id !in Apply(s, Delete(id)).rows;
    }
  }

  /**
   * A range is accepted by create exactly when its stored seconds are in order, whatever the handler's own test
   * says.
   */
  lemma CreateSucceedsIff(s: Store, id: string, reason: string, startsAt: Stamp, endsAt: Stamp)
    ensures var step := Create(id, reason, startsAt, endsAt);
      && (Respond(s, step) == Success
          <==> 1 <= |reason| <= 255 && id !in s.rows && startsAt.At? && endsAt.At?
               && startsAt.ms / 1000 < endsAt.ms / 1000)
      && (Respond(s, step) == Success ==>
            Apply(s, step).rows == s.rows[id := Closure(reason, startsAt.ms / 1000, endsAt.ms / 1000)])
  {
    if startsAt.At? && endsAt.At? && endsAt.ms <= startsAt.ms {
      assert Seconds(endsAt.ms) <= Seconds(startsAt.ms);
    }
  }

  /** An update goes through exactly while the stored closure has not started, on the same terms as a new one. */
  lemma UpdateSucceedsIff(s: Store, id: string, reason: string, startsAt: Stamp, endsAt: Stamp)
    ensures var step := Update(id, reason, startsAt, endsAt);
      && (Respond(s, step) == Success
          <==> 1 <= |reason| <= 255 && id in s.rows && s.now < 1000 * s.rows[id].startsAt
               && startsAt.At? && endsAt.At? && startsAt.ms / 1000 < endsAt.ms / 1000)
      && (Respond(s, step) == Success ==>
            Apply(s, step).rows == s.rows[id := Closure(reason, startsAt.ms / 1000, endsAt.ms / 1000)])
  {
    if startsAt.At? && endsAt.At? && endsAt.ms <= startsAt.ms {
      assert Seconds(endsAt.ms) <= Seconds(startsAt.ms);
    }
  }

  /** A closure can be deleted exactly while it has not started, and then it alone is gone. */
  lemma DeleteSucceedsIff(s: Store, id: string)
    ensures Respond(s, Delete(id)) == Success <==> id in s.rows && s.now < 1000 * s.rows[id].startsAt
    ensures Respond(s, Delete(id)) == Success ==> Apply(s, Delete(id)).rows == s.rows - {id}
  {
  }

  /** Of several reasons to refuse, the form is told the first: reason text, unknown id, started, order. */
  lemma RefusalsInOrder(s: Store, id: string, reason: string, startsAt: Stamp, endsAt: Stamp)
    ensures var fits := 1 <= |reason| <= 255;
      var reversed := startsAt.At? && endsAt.At? && endsAt.ms <= startsAt.ms;
      var started := id in s.rows && 1000 * s.rows[id].startsAt <= s.now;
      var creating, updating := Respond(s, Create(id, reason, startsAt, endsAt)),
                                Respond(s, Update(id, reason, startsAt, endsAt));
      && (creating == SchemaRejected <==> !fits)
      && (creating == EndNotAfterStart <==> fits && reversed)
      && creating !in {NotFound, PastOrActive}
      && (updating == SchemaRejected <==> !fits)
      && (updating == NotFound <==> fits && id !in s.rows)
      && (updating == PastOrActive <==> fits && started)
      && (updating == EndNotAfterStart <==> fits && id in s.rows && !started && reversed)
      && (Respond(s, Delete(id)) == NotFound <==> id !in s.rows)
      && (Respond(s, Delete(id)) == PastOrActive <==> started)
  {
  }

  /** Both dates are readable and out of order only once cut to seconds, or one of them is unreadable. */
  predicate PassesHandlerOnly(startsAt: Stamp, endsAt: Stamp) {
    startsAt.Invalid? || endsAt.Invalid? || (startsAt.ms < endsAt.ms && Seconds(startsAt.ms) == Seconds(endsAt.ms))
  }

  /**
   * In both forms a range inside one second, or an unreadable date, passes the handler's test and is stopped by
   * the table alone.
   */
  lemma TableAloneRejectsIff(s: Store, id: string, reason: string, startsAt: Stamp, endsAt: Stamp)
    requires ReasonFits(reason)
    ensures id !in s.rows ==>
      (Respond(s, Create(id, reason, startsAt, endsAt)) == DatabaseRejected <==> PassesHandlerOnly(startsAt, endsAt))
    ensures id in s.rows && !HasStarted(s, id) ==>
      (Respond(s, Update(id, reason, startsAt, endsAt)) == DatabaseRejected <==> PassesHandlerOnly(startsAt, endsAt))
  {
  }

  /** A closure from the start of a second to its middle: the handler accepts the order, the table refuses the row. */
  lemma HalfSecondIsRefused(now: int)
    ensures !NotAfter(At(500), At(0)) && Respond(Store(map[], now), Create("c", "repairs", At(0), At(500)))
      == DatabaseRejected
  {
    TableAloneRejectsIff(Store(map[], now), "c", "repairs", At(0), At(500));
  }

  /** Time passes: a closure has started once as many milliseconds have gone by as its start was ahead. */
  lemma StartsInTime(s: Store, id: string, ms: nat)
    requires id in s.rows
    ensures id in Apply(s, Tick(ms)).rows
    ensures HasStarted(Apply(s, Tick(ms)), id) <==> 1000 * s.rows[id].startsAt - s.now <= ms
  {
  }

  /** Steps touch no closure but their own, and a refused step touches none. */
  lemma StepTouchesOnlyItsOwn(s: Store, step: Step, other: string)
    requires step.Tick? || step.id != other || Respond(s, step) != Success
    ensures other in Apply(s, step).rows <==> other in s.rows
    ensures other in s.rows ==> Apply(s, step).rows[other] == s.rows[other]
  {
  }

  /** The table behind the three forms. */
  class ClosureTable {
    var rows: map<string, Closure>
    var now: int

    ghost function Contents(): Store
      reads this
    {
      Store(rows, now)
    }

    constructor (now: int)
      ensures Contents() == Store(map[], now) && InOrder(Contents())
    {
      rows, this.now := map[], now;
    }

    /** `id` is the random id the insert would use. */
    method CreateClosure(id: string, reason: string, startsAt: Stamp, endsAt: Stamp) returns (r: Response)
      requires InOrder(Contents())
      modifies this`rows
      ensures r == Respond(old(Contents()), Create(id, reason, startsAt, endsAt))
      ensures Contents() == Apply(old(Contents()), Create(id, reason, startsAt, endsAt)) && InOrder(Contents())
    {
      if |reason| < 1 || |reason| > 255 {
        return SchemaRejected;
      }
      if NotAfter(endsAt, startsAt) {
        return EndNotAfterStart;
      }
      r := Write(id, reason, startsAt, endsAt, id !in rows);
    }

    method UpdateClosure(id: string, reason: string, startsAt: Stamp, endsAt: Stamp) returns (r: Response)
      requires InOrder(Contents())
      modifies this`rows
      ensures r == Respond(old(Contents()), Update(id, reason, startsAt, endsAt))
      ensures Contents() == Apply(old(Contents()), Update(id, reason, startsAt, endsAt)) && InOrder(Contents())
    {
      if |reason| < 1 || |reason| > 255 {
        return SchemaRejected;
      }
      if id !in rows {
        return NotFound;
      }
      if rows[id].startsAt * 1000 <= now {
        return PastOrActive;
      }
      if NotAfter(endsAt, startsAt) {
        return EndNotAfterStart;
      }
      r := Write(id, reason, startsAt, endsAt, true);
    }

    method DeleteClosure(id: string) returns (r: Response)
      requires InOrder(Contents())
      modifies this`rows
      ensures r == Respond(old(Contents()), Delete(id))
      ensures Contents() == Apply(old(Contents()), Delete(id)) && InOrder(Contents())
    {
      if id !in rows {
        return NotFound;
      }
      if rows[id].startsAt * 1000 <= now {
        return PastOrActive;
      }
      rows := rows - {id};
      return Success;
    }

    /** The table's own constraints on a written row; `keyFree` says the primary key allows it. */
    method Write(id: string, reason: string, startsAt: Stamp, endsAt: Stamp, keyFree: bool) returns (r: Response)
      modifies this`rows
      ensures r == if Storable(startsAt, endsAt) && keyFree then Success else DatabaseRejected
      ensures rows == if r == Success
                      then old(rows)[id := Closure(reason, Seconds(startsAt.ms), Seconds(endsAt.ms))] else old(rows)
    {
      if !Storable(startsAt, endsAt) || !keyFree {
        return DatabaseRejected;
      }
      rows := rows[id := Closure(reason, Seconds(startsAt.ms), Seconds(endsAt.ms))];
      return Success;
    }

    method Wait(ms: nat)
      modifies this`now
      ensures Contents() == Apply(old(Contents()), Tick(ms))
    {
      now := now + ms;
    }
  }
}
