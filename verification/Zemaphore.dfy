/** The semaphore of zemaphore.h, made of a counter, a lock and a condition
    variable. A step is one section under the lock. pthread_cond_signal wakes
    one of the waiting threads if there is one, and a waiting thread may also
    wake up by itself. */
module Zemaphore {
  // woken threads have left the condition variable and want the lock again;
  // waits and posts count the calls that have returned.
  datatype Zem = Zem(value: int, waiting: set<nat>, woken: set<nat>, waits: nat, posts: nat)

  datatype Event = Wait(t: nat) | Wakes(t: nat) | Post(t: nat) | Spurious(t: nat)

  function Init(value: int): Zem {
    Zem(value, {}, {}, 0, 0)
  }

  // Post(t) wakes t if anyone is waiting.
  predicate Possible(z: Zem, e: Event) {
    match e
    case Wait(t) => t !in z.waiting && t !in z.woken
    case Wakes(t) => t in z.woken
    case Post(t) => z.waiting != {} ==> t in z.waiting
    case Spurious(t) => t in z.waiting
  }

  // The loop of Zem_wait, from where t has the lock to where it gives it up.
  function TryTake(z: Zem, t: nat): Zem {
    if z.value <= 0 then z.(waiting := z.waiting + {t}) else z.(value := z.value - 1, waits := z.waits + 1)
  }

  function Next(z: Zem, e: Event): Zem {
    match e
    case Wait(t) => TryTake(z, t)
    case Wakes(t) => TryTake(z.(woken := z.woken - {t}), t)
    case Post(t) =>
      var z' := z.(value := z.value + 1, posts := z.posts + 1);
      if z.waiting == {} then z' else z'.(waiting := z.waiting - {t}, woken := z.woken + {t})
    case Spurious(t) => z.(waiting := z.waiting - {t}, woken := z.woken + {t})
  }

  // While a thread waits, every unit of the value has a woken thread that is
  // going to take it.
  predicate Inv(z: Zem, start: int) {
    && z.waiting !! z.woken && z.value == start + z.posts - z.waits
    && (z.waits > 0 ==> z.value >= 0) && (z.waiting != {} ==> z.value <= |z.woken|)
  }

  lemma NextKeeps(z: Zem, e: Event, start: int)
    requires Inv(z, start) && Possible(z, e)
    ensures Inv(Next(z, e), start)
  {
    if e.Wakes? { assert |z.woken - {e.t}| == |z.woken| - 1; }
    if (e.Post? || e.Spurious?) && z.waiting != {} { assert |z.woken + {e.t}| == |z.woken| + 1; }
  }

  ghost predicate Run(start: int, es: seq<Event>, tr: seq<Zem>) {
    && |tr| == |es| + 1 && tr[0] == Init(start)
    && forall i :: 0 <= i < |es| ==> Possible(tr[i], es[i]) && tr[i + 1] == Next(tr[i], es[i])
  }

  lemma {:induction false} RunInv(start: int, es: seq<Event>, tr: seq<Zem>, i: nat)
    requires Run(start, es, tr) && i < |tr|
    ensures Inv(tr[i], start)
  {
    if i > 0 {
      RunInv(start, es, tr, i - 1);
      NextKeeps(tr[i - 1], es[i - 1], start);
    }
  }

  // Zem_wait has returned at most as often as the initial value and the posts
  // allow, and no thread is left waiting without a woken one while the value
  // is positive: a woken thread exists and takes the unit.
  lemma NoLostSignal(start: int, es: seq<Event>, tr: seq<Zem>, i: nat)
    requires Run(start, es, tr) && i < |tr|
    ensures tr[i].waits > 0 ==> tr[i].waits <= start + tr[i].posts
    ensures tr[i].waiting != {} && tr[i].value > 0 ==>
      exists t :: t in tr[i].woken && Possible(tr[i], Wakes(t)) && Next(tr[i], Wakes(t)).waits == tr[i].waits + 1
  {
    RunInv(start, es, tr, i);
    var z := tr[i];
    if z.waiting != {} && z.value > 0 {
      assert z.woken != {};
      var t :| t in z.woken;
      assert Possible(z, Wakes(t)) && Next(z, Wakes(t)).waits == z.waits + 1;
    }
  }
}
