/**
 Recurrence options of a task. Each option is a small transformer of the
 record {repeat, every, until}; Submit folds them, left to right, onto a fresh
 zero record. Instants and durations are integers, and the instant 0 plays
 the part of Go's zero time.Time (IsZero).
 */
module Options {

  /** An instant; 0 stands for the zero time. */
  type Time = int

  /** A length of time. */
  type Duration = int

  /** The repeat count that never runs out. */
  const Forever: int := -1

  /** The recurrence record `taskOpt`. */
  datatype TaskOptions = TaskOptions(repeat: int, every: Duration, until: Time)

  /** The record `new(taskOpt)` starts from. */
  const Zero: TaskOptions := TaskOptions(0, 0, 0)

  /** A functional option `TaskOpt`, one constructor per closure body. */
  datatype TaskOpt = SetRepeat(n: int) | SetEvery(d: Duration) | SetUntil(t: Time)

  /** Repeat(n) sets the count to n and leaves the interval and the cutoff. */
  function Repeat(n: int): (f: TaskOpt)
    ensures forall o :: Apply(f, o) == TaskOptions(n, o.every, o.until)
  {
    SetRepeat(n)
  }

  /** RepeatForever() acts exactly as Repeat(Forever) on every record. */
  function RepeatForever(): (f: TaskOpt)
    ensures forall o :: Apply(f, o) == Apply(Repeat(Forever), o) && Apply(f, o).repeat == -1
  {
    Repeat(Forever)
  }

  /** Every(d) sets the interval; it turns a zero count into Forever and keeps
      any other count, and it leaves the cutoff. */
  function Every(d: Duration): (f: TaskOpt)
    ensures forall o :: Apply(f, o).every == d && Apply(f, o).until == o.until
    ensures forall o: TaskOptions :: o.repeat == 0 ==> Apply(f, o).repeat == Forever
    ensures forall o: TaskOptions :: o.repeat != 0 ==> Apply(f, o).repeat == o.repeat
  {
    SetEvery(d)
  }

  /** Until(t) sets the cutoff and nothing else. */
  function Until(t: Time): (f: TaskOpt)
    ensures forall o :: Apply(f, o) == TaskOptions(o.repeat, o.every, t)
  {
    SetUntil(t)
  }

  /** Runs the closure of option f on the record o: each option writes its
      own field, and only Every also touches another one, the count, when it
      is still 0. */
  function Apply(f: TaskOpt, o: TaskOptions): (r: TaskOptions)
    ensures r.repeat == if f.SetRepeat? then f.n else if f.SetEvery? && o.repeat == 0 then Forever else o.repeat
    ensures r.every == if f.SetEvery? then f.d else o.every
    ensures r.until == if f.SetUntil? then f.t else o.until
  {
    match f
    case SetRepeat(n) => o.(repeat := n)
    case SetEvery(d) => o.(every := d, repeat := if o.repeat == 0 then Forever else o.repeat)
    case SetUntil(t) => o.(until := t)
  }

  /** Runs the options in order, first to last, on o. A field that no option
      of the list writes keeps its value, and a single option is just applied. */
  function ApplyAll(opts: seq<TaskOpt>, o: TaskOptions): (r: TaskOptions)
    ensures (forall k :: 0 <= k < |opts| ==> !opts[k].SetUntil?) ==> r.until == o.until
    ensures (forall k :: 0 <= k < |opts| ==> !opts[k].SetEvery?) ==> r.every == o.every
    ensures (forall k :: 0 <= k < |opts| ==> opts[k].SetUntil?) ==> r.repeat == o.repeat
    ensures |opts| == 1 ==> r == Apply(opts[0], o)
    decreases |opts|
  {
    if opts == [] then o else Apply(opts[|opts| - 1], ApplyAll(opts[..|opts| - 1], o))
  }

  /** Applying Every(d) twice is the same as applying it once. */
  lemma EveryIdempotent(d: Duration, o: TaskOptions)
    ensures Apply(Every(d), Apply(Every(d), o)) == Apply(Every(d), o)
  {
  }

  /** Folding a concatenation folds the second part onto the result of the first. */
  lemma {:induction false} ApplyAllAppend(a: seq<TaskOpt>, b: seq<TaskOpt>, o: TaskOptions)
    ensures ApplyAll(a + b, o) == ApplyAll(b, ApplyAll(a, o))
    decreases |b|
  {
    if b == [] {
      assert a + b == a;
    } else {
      var b' := b[..|b| - 1];
      assert (a + b)[..|a + b| - 1] == a + b';
      ApplyAllAppend(a, b', o);
    }
  }

  /** The order of Every and Repeat matters: Repeat(n) after Every(d) gives n,
      even n == 0, which makes the task one-shot again ... */
  lemma EveryThenRepeat(d: Duration, n: int)
    ensures ApplyAll([Every(d), Repeat(n)], Zero) == TaskOptions(n, d, 0)
  {
    assert [Every(d)][..0] == [];
    assert ApplyAll([Every(d)], Zero) == TaskOptions(Forever, d, 0);
    assert [Every(d), Repeat(n)][..1] == [Every(d)];
  }

  /** ... and Every(d) after a non-zero Repeat(n) keeps n, while after no
      Repeat at all it makes the task repeat forever. */
  lemma RepeatThenEvery(d: Duration, n: int)
    ensures n != 0 ==> ApplyAll([Repeat(n), Every(d)], Zero) == TaskOptions(n, d, 0)
    ensures ApplyAll([Every(d)], Zero) == TaskOptions(Forever, d, 0)
  {
    assert [Repeat(n)][..0] == [] && [Every(d)][..0] == [];
    assert ApplyAll([Repeat(n)], Zero) == TaskOptions(n, 0, 0);
    assert [Repeat(n), Every(d)][..1] == [Repeat(n)];
  }
}
