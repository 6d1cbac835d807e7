// A command run alone: the step machine of Commands driven by one process, with the rows it writes.
module Solo {
  import opened Prelude
  import opened Factor
  import opened Commands

  /** A factor and the rows written so far. */
  datatype Trail = Trail(l: Local, log: seq<Event>)

  function Stepped(t: Trail, n: Name, f: Option<Event>, now: Time, ch: Choice): Trail {
    var m := LocalStep(t.l, n, f, ch, now);
    Trail(m.next, t.log + m.events)
  }

  /** The step machine driven by one process: one choice per step. */
  function Drive(t: Trail, n: Name, f: Option<Event>, now: Time, chs: seq<Choice>): Trail
    decreases |chs|
  {
    if chs == [] then t else Drive(Stepped(t, n, f, now, chs[0]), n, f, now, chs[1..])
  }

  lemma {:induction false} DriveAppends(t: Trail, n: Name, f: Option<Event>, now: Time, a: seq<Choice>, b: seq<Choice>)
    ensures Drive(t, n, f, now, a + b) == Drive(Drive(t, n, f, now, a), n, f, now, b)
    decreases |a|
  {
    if a == [] {
      assert a + b == b;
    } else {
      assert (a + b)[1..] == a[1..] + b;
      DriveAppends(Stepped(t, n, f, now, a[0]), n, f, now, a[1..], b);
    }
  }

  lemma {:induction false} DriveExtends(t: Trail, n: Name, f: Option<Event>, now: Time, chs: seq<Choice>, ch: Choice)
    ensures Drive(t, n, f, now, chs + [ch]) == Stepped(Drive(t, n, f, now, chs), n, f, now, ch)
  {
    DriveAppends(t, n, f, now, chs, [ch]);
    assert [ch][1..] == [];
  }

  /** From pc, alone, these choices free the lock, with these effects. */
  ghost predicate Finishes(c: Cell, pc: Pc, n: Name, f: Option<Event>, now: Time, chs: seq<Choice>, c': Cell, log: seq<Event>) {
    Drive(Trail(Local(c, pc, false), []), n, f, now, chs) == Trail(Local(c', Free, false), log)
  }
}
