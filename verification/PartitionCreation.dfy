/** Double-checked creation of partition stores, by any number of threads at once. */
module PartitionCreation {
  import opened Bytes
  import opened Outcomes

  /** Where a call of GetOrCreatePartition is; from `Locked` to `Published` it holds the write lock. */
  datatype Pc =
    | Started(key: bytes)
    | Missed(key: bytes)
    | Locked(key: bytes)
    | Absent(key: bytes)
    | Opened(key: bytes, id: nat)
    | Published(key: bytes, id: nat)

  predicate HoldsLock(pc: Pc) {
    pc.Locked? || pc.Absent? || pc.Opened? || pc.Published?
  }

  /** One store object, opened for a key. */
  datatype Store = Store(key: bytes, id: nat)

  /**
   * `stores` is the shared map, `made` every store ever opened in order, and
   * `answers` what calls have returned with success.
   */
  datatype State = State(
    stores: map<bytes, nat>,
    made: seq<Store>,
    writer: Option<nat>,
    calls: map<nat, Pc>,
    answers: set<Store>)

  datatype Step =
    | Call(thread: nat, key: bytes)
    | FastPath(thread: nat)
    | Acquire(thread: nat)
    | Recheck(thread: nat)
    | OpenFails(thread: nat)
    | Open(thread: nat)
    | Publish(thread: nat)
    | Return(thread: nat)

  function Moved(s: State, th: nat, pc: Pc): State {
    s.(calls := s.calls[th := pc])
  }

  /** The call ends with the store published for its key, if any. */
  function Answered(s: State, th: nat, key: bytes): State {
    s.(calls := s.calls - {th},
       answers := if key in s.stores then s.answers + {Store(key, s.stores[key])} else s.answers)
  }

  ghost predicate Next(s: State, step: Step, t: State) {
    match step
    case Call(th, key) =>
      th !in s.calls && t == Moved(s, th, Started(key))
    case FastPath(th) =>
      && th in s.calls && s.calls[th].Started? && s.writer == None
      && var key := s.calls[th].key;
         t == if key in s.stores then Answered(s, th, key) else Moved(s, th, Missed(key))
    case Acquire(th) =>
      && th in s.calls && s.calls[th].Missed? && s.writer == None
      && t == Moved(s, th, Locked(s.calls[th].key)).(writer := Some(th))
    case Recheck(th) =>
      && th in s.calls && s.calls[th].Locked?
      && var key := s.calls[th].key;
         t == if key in s.stores then Answered(s, th, key).(writer := None) else Moved(s, th, Absent(key))
    case OpenFails(th) =>
      && th in s.calls && s.calls[th].Absent?
      && t == s.(calls := s.calls - {th}, writer := None)
    case Open(th) =>
      && th in s.calls && s.calls[th].Absent?
      && var key, id := s.calls[th].key, |s.made|;
         t == Moved(s, th, Opened(key, id)).(made := s.made + [Store(key, id)])
    case Publish(th) =>
      && th in s.calls && s.calls[th].Opened?
      && var key, id := s.calls[th].key, s.calls[th].id;
         t == Moved(s, th, Published(key, id)).(stores := s.stores[key := id])
    case Return(th) =>
      && th in s.calls && s.calls[th].Published?
      && t == Answered(s, th, s.calls[th].key).(writer := None)
  }

  /** No call yet; the stores are those opened by the scan at startup, one for each key. */
  ghost predicate Init(s: State) {
    && s.calls == map[] && s.writer == None && s.answers == {}
    && OpenedOnce(s)
    && (forall i :: 0 <= i < |s.made| ==> s.made[i].key in s.stores && s.stores[s.made[i].key] == s.made[i].id)
    && (forall k :: k in s.stores ==> Store(k, s.stores[k]) in s.made)
  }

  ghost predicate IsRun(states: seq<State>, steps: seq<Step>) {
    && |states| == |steps| + 1
    && Init(states[0])
    && forall i :: 0 <= i < |steps| ==> Next(states[i], steps[i], states[i + 1])
  }

  // --------------------------------------------------------------- properties

  /** At most one store was ever opened for a key. */
  ghost predicate OpenedOnce(s: State) {
    forall i, j :: 0 <= i < j < |s.made| ==> s.made[i].key != s.made[j].key
  }

  /** Every successful call got the store that is published for its key. */
  ghost predicate AnswersAgree(s: State) {
    forall a :: a in s.answers ==> a.key in s.stores && s.stores[a.key] == a.id
  }

  /** What is published stays published, under the same store. */
  ghost predicate Extends(s: State, t: State) {
    forall k :: k in s.stores ==> k in t.stores && t.stores[k] == s.stores[k]
  }

  /** Exactly the write lock's holder is between acquiring and releasing it. */
  ghost predicate OneWriter(s: State) {
    && (forall th :: th in s.calls && HoldsLock(s.calls[th]) ==> s.writer == Some(th))
    && (s.writer.Some? ==> s.writer.value in s.calls && HoldsLock(s.calls[s.writer.value]))
  }

  /** What a call in progress knows about its key. */
  ghost predicate CallSound(s: State, pc: Pc) {
    match pc
    case Absent(key) => key !in s.stores
    case Opened(key, id) => key !in s.stores && Store(key, id) in s.made
    case Published(key, id) => key in s.stores && s.stores[key] == id
    case _ => true
  }

  /** A store opened is published, or in the hands of the lock's holder. */
  ghost predicate OpenedSound(s: State) {
    forall i :: 0 <= i < |s.made| ==>
      var o := s.made[i];
      || (o.key in s.stores && s.stores[o.key] == o.id)
      || (s.writer.Some? && s.writer.value in s.calls && s.calls[s.writer.value] == Opened(o.key, o.id))
  }

  ghost predicate Inv(s: State) {
    && OpenedOnce(s) && AnswersAgree(s) && OneWriter(s) && OpenedSound(s)
    && forall th :: th in s.calls ==> CallSound(s, s.calls[th])
  }

  lemma OpenKeeps(s: State, th: nat, t: State)
    requires Inv(s) && Next(s, Open(th), t)
    ensures Inv(t)
  {
    var key := s.calls[th].key;
    assert s.writer == Some(th);
    assert forall i :: 0 <= i < |s.made| ==> s.made[i].key != key;
  }

  lemma PublishKeeps(s: State, th: nat, t: State)
    requires Inv(s) && Next(s, Publish(th), t)
    ensures Inv(t) && Extends(s, t)
  {
    assert s.writer == Some(th);
  }

  lemma AnswerKeeps(s: State, step: Step, t: State)
    requires Inv(s) && Next(s, step, t)
    requires step.Recheck? || step.Return? || step.OpenFails? || step.FastPath?
    ensures Inv(t) && Extends(s, t)
  {
    assert OpenedOnce(t) && AnswersAgree(t) && OpenedSound(t);
  }

  lemma StepKeeps(s: State, step: Step, t: State)
    requires Inv(s) && Next(s, step, t)
    ensures Inv(t) && Extends(s, t)
  {
    match step
    case Open(th) => OpenKeeps(s, th, t);
    case Publish(th) => PublishKeeps(s, th, t);
    case Call(th, key) =>
    case Acquire(th) =>
    case _ => AnswerKeeps(s, step, t);
  }

  lemma {:induction false} RunKeeps(states: seq<State>, steps: seq<Step>, i: nat)
    requires IsRun(states, steps) && i < |states|
    ensures Inv(states[i])
  {
    if i == 0 {
      assert Inv(states[0]);
    } else {
      hide Inv, Next;
      RunKeeps(states, steps, i - 1);
      StepKeeps(states[i - 1], steps[i - 1], states[i]);
    }
  }

  lemma {:induction false} PublishedForGood(states: seq<State>, steps: seq<Step>, i: nat, j: nat)
    requires IsRun(states, steps) && i <= j < |states|
    ensures Extends(states[i], states[j])
  {
    hide Inv, Next;
    if i < j {
      PublishedForGood(states, steps, i, j - 1);
      RunKeeps(states, steps, j - 1);
      StepKeeps(states[j - 1], steps[j - 1], states[j]);
    }
  }

  /** In no interleaving are two stores opened for one key. */
  lemma NeverOpenedTwice(states: seq<State>, steps: seq<Step>, i: nat)
    requires IsRun(states, steps) && i < |states|
    ensures OpenedOnce(states[i])
  {
    hide Next;
    RunKeeps(states, steps, i);
  }

  /**
   * In every interleaving any two successful calls for a key, at any two moments,
   * return the same store, one that was opened for that key.
   */
  lemma OneStorePerKey(states: seq<State>, steps: seq<Step>, i: nat, j: nat, a: Store, b: Store)
    requires IsRun(states, steps) && i <= j < |states|
    requires a in states[i].answers && b in states[j].answers && a.key == b.key
    ensures a == b && b in states[j].made
  {
    hide Next;
    RunKeeps(states, steps, i);
    RunKeeps(states, steps, j);
    PublishedForGood(states, steps, i, j);
    RunOpens(states, steps, j);
  }

  /** Every published store was opened for its key. */
  ghost predicate PublishedWasOpened(s: State) {
    && (forall k :: k in s.stores ==> Store(k, s.stores[k]) in s.made)
    && (forall th :: th in s.calls && s.calls[th].Opened? ==> Store(s.calls[th].key, s.calls[th].id) in s.made)
  }

  lemma {:induction false} RunOpens(states: seq<State>, steps: seq<Step>, i: nat)
    requires IsRun(states, steps) && i < |states|
    ensures PublishedWasOpened(states[i])
  {
    if i > 0 {
      RunOpens(states, steps, i - 1);
      assert Next(states[i - 1], steps[i - 1], states[i]);
    }
  }

  /**
   * No call comes back empty-handed: in every interleaving a call that ends, other than by
   * failing to open, has answered with a store opened for its key and published for good.
   */
  lemma EndedCallsAnswer(states: seq<State>, steps: seq<Step>, i: nat, th: nat)
    requires IsRun(states, steps) && i < |steps|
    requires th in states[i].calls && th !in states[i + 1].calls && steps[i] != OpenFails(th)
    ensures var key, t := states[i].calls[th].key, states[i + 1];
            key in t.stores && Store(key, t.stores[key]) in t.answers && Store(key, t.stores[key]) in t.made
  {
    RunKeeps(states, steps, i);
    RunOpens(states, steps, i + 1);
    assert Next(states[i], steps[i], states[i + 1]);
  }

  /** The call that opened a store is the one that answers with it first. */
  lemma OpenerAnswers(s: State, th: nat, t: State, u: State)
    requires th in s.calls && s.calls[th].Opened?
    requires Next(s, Publish(th), t) && Next(t, Return(th), u)
    ensures Store(s.calls[th].key, s.calls[th].id) in u.answers && th !in u.calls && u.writer == None
  {
  }
}
