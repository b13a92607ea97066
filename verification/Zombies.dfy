/**
 Reclaiming processes that located the coordinator and died before connecting: the zombie check of
 the main loop, over runs of iterations without socket events or registrations.
 */
module Zombies {
  import opened LinkedList
  import opened Coordinator
  import opened CoordinatorRuns

  /** Used processes still listening whose known pid no longer exists. */
  ghost function ZombieSet(s: State, dead: set<int>): set<Slot>
  {
    set p: Slot | p in s.used && s.procs[p].status == Listening && 0 < s.procs[p].pid && s.procs[p].pid in dead
  }

  /** No socket of a used process is readable and no process registers; requests may arrive. */
  ghost predicate IsQuiet(ev: Event, dead: set<int>)
  {
    ev.register == None && ev.ready == {} && ev.dead == dead && InBounds(ev.request)
  }

  /** A quiet pass disconnects the first zombie it meets if the check is due, and nothing otherwise. */
  lemma {:induction false} QuietWalk(s: State, rest: seq<Slot>, ev: Event) returns (p: Slot)
    requires Slots(s) && (forall q: Slot :: q in rest ==> q in s.used) && ev.ready == {}
    ensures Walk(s, rest, ev).Go?
    ensures var t := Walk(s, rest, ev).s;
            t == s || (p in rest && p in ZombieSet(s, ev.dead) && t == Disconnect(s, p).(counter := s.counter - 1))
    ensures Walk(s, rest, ev).s == s && ChecksZombies(s) ==> forall q: Slot :: q in rest ==> q !in ZombieSet(s, ev.dead)
    ensures Walk(s, rest, ev).s != s ==> ChecksZombies(s)
    decreases |rest|
  {
    p := 0;
    if rest != [] {
      assert rest[0] in rest && IsUsed(s, rest[0]);
      if ChecksZombies(s) && IsZombie(s, rest[0], ev.dead) {
        p := rest[0];
        DisconnectSlots(s, p);
      } else {
        p := QuietWalk(s, rest[1..], ev);
        assert rest == [rest[0]] + rest[1..];
      }
    }
  }

  lemma DisconnectReclaims(s: State, p: Slot, dead: set<int>)
    requires Slots(s) && p in ZombieSet(s, dead)
    ensures ZombieSet(Disconnect(s, p), dead) == ZombieSet(s, dead) - {p}
    ensures forall q: Slot :: q in s.used && q != p ==>
                          q in Disconnect(s, p).used && Disconnect(s, p).procs[q] == s.procs[q]
  {
    DisconnectSlots(s, p);
  }

  /** The process itself, apart from the names it registered. */
  ghost predicate SameProcess(a: Process, b: Process)
  {
    a.mboxId == b.mboxId && a.pid == b.pid && a.open == b.open && a.status == b.status
  }

  /**
   A used process keeps its slot and state if it is connected, if its pid is unknown or if its pid
   exists; only a listening process with a dead pid may be reclaimed.
   */
  ghost predicate KeepsLive(s: State, t: State, dead: set<int>)
  {
    forall p: Slot :: p in s.used && !(s.procs[p].status == Listening && 0 < s.procs[p].pid && s.procs[p].pid in dead) ==>
                  p in t.used && SameProcess(s.procs[p], t.procs[p])
  }

  /** A zombie that was reclaimed is on the free list, and what was on it stays there. */
  ghost predicate ReclaimedFree(s: State, t: State, dead: set<int>)
  {
    && (forall p: Slot :: p in ZombieSet(s, dead) && p !in ZombieSet(t, dead) ==> p in t.free)
    && (forall p: Slot :: p in s.free ==> p in t.free)
  }

  lemma ReclaimedOn(s: State, t: State, u: State, dead: set<int>)
    requires ReclaimedFree(s, t, dead) && ReclaimedFree(t, u, dead)
    ensures ReclaimedFree(s, u, dead)
  {
  }

  lemma RequestKeepsZombies(s: State, req: Request, dead: set<int>)
    requires Slots(s) && InBounds(req)
    ensures ZombieSet(Tick(Handle(s, req)), dead) == ZombieSet(s, dead)
    ensures forall p: Slot :: SameProcess(s.procs[p], Tick(Handle(s, req)).procs[p])
  {
    var t := Tick(Handle(s, req));
    assert t.used == s.used;
    forall p: Slot ensures SameProcess(s.procs[p], t.procs[p]) {
    }
    assert forall p: Slot :: p in ZombieSet(t, dead) <==> p in ZombieSet(s, dead);
  }

  lemma KeepsLiveOn(s: State, t: State, u: State, dead: set<int>)
    requires KeepsLive(s, t, dead) && ReclaimedFree(s, t, dead)
    requires u.used == t.used && u.free == t.free && forall p: Slot :: SameProcess(t.procs[p], u.procs[p])
    requires ZombieSet(u, dead) == ZombieSet(t, dead)
    ensures KeepsLive(s, u, dead) && ReclaimedFree(s, u, dead)
  {
  }

  /** Effect of a whole quiet pass over the used list. */
  lemma QuietPass(s: State, ev: Event, dead: set<int>)
    requires Slots(s) && ev.ready == {} && ev.dead == dead
    ensures Walk(s, s.used, ev).Go?
    ensures var t := Walk(s, s.used, ev).s;
            && KeepsLive(s, t, dead)
            && ZombieSet(t, dead) <= ZombieSet(s, dead)
            && ReclaimedFree(s, t, dead)
            && (if ZombieSet(s, dead) != {} && ChecksZombies(s)
                then t.counter == s.counter - 1 && t.freeCount == s.freeCount + 1 && |ZombieSet(t, dead)| == |ZombieSet(s, dead)| - 1
                else t == s)
  {
    var p := QuietWalk(s, s.used, ev);
    var t := Walk(s, s.used, ev).s;
    if t != s {
      DisconnectReclaims(s, p, dead);
      DisconnectSlots(s, p);
      assert ZombieSet(t, dead) == ZombieSet(s, dead) - {p};
      assert p in t.free;
    }
  }

  /** Counter and number of zombies over a quiet iteration; `checks` tells whether a zombie was reclaimed. */
  lemma MeasureDrops(before: int, after: int, counter: int, mid: int, next: int, checks: bool)
    requires 0 <= counter < RETRIES && next == (mid + 1) % RETRIES
    requires if checks then mid == counter - 1 && after == before - 1
             else mid == counter && after == before && counter != RETRIES - 1
    ensures after - next == before - counter - 1
  {
  }

  /** A quiet iteration is the pass, the request and the counter. */
  lemma QuietForm(s: State, ev: Event, dead: set<int>)
    requires Steady(s) && IsQuiet(ev, dead)
    ensures Walk(s, s.used, ev).Go? && Iterate(s, ev) == Go(Tick(Handle(Walk(s, s.used, ev).s, ev.request)))
    ensures Steady(Iterate(s, ev).s) && Slots(Walk(s, s.used, ev).s)
  {
    IterateSteady(s, ev);
    QuietPass(s, ev, dead);
  }

  /** The request and the counter, after the pass has led to `t`. */
  lemma QuietRest(s: State, t: State, req: Request, dead: set<int>)
    requires Slots(t) && InBounds(req) && KeepsLive(s, t, dead) && ReclaimedFree(s, t, dead)
    ensures var u := Tick(Handle(t, req));
            && ZombieSet(u, dead) == ZombieSet(t, dead) && KeepsLive(s, u, dead) && ReclaimedFree(s, u, dead)
            && u.counter == (t.counter + 1) % 10 && u.freeCount == t.freeCount && u.used == t.used && u.free == t.free
            && forall p: Slot :: SameProcess(t.procs[p], u.procs[p])
  {
    RequestKeepsZombies(t, req, dead);
    HandleSlots(t, req);
    KeepsLiveOn(s, t, Tick(Handle(t, req)), dead);
  }

  /**
   A quiet iteration disconnects no live process and frees the slot of a zombie it reclaims; while zombies
   are left it either reclaims one and keeps the counter or moves the counter up, so
   zombies + (9 - counter) drops by one.
   */
  lemma QuietIteration(s: State, ev: Event, dead: set<int>)
    requires Steady(s) && IsQuiet(ev, dead)
    ensures Iterate(s, ev).Go? && Steady(Iterate(s, ev).s)
    ensures ZombieSet(Iterate(s, ev).s, dead) <= ZombieSet(s, dead)
    ensures KeepsLive(s, Iterate(s, ev).s, dead) && ReclaimedFree(s, Iterate(s, ev).s, dead)
    ensures ZombieSet(s, dead) != {} ==>
              |ZombieSet(Iterate(s, ev).s, dead)| - Iterate(s, ev).s.counter == |ZombieSet(s, dead)| - s.counter - 1
  {
    QuietForm(s, ev, dead);
    QuietPass(s, ev, dead);
    var t := Walk(s, s.used, ev).s;
    QuietRest(s, t, ev.request, dead);
    if ZombieSet(s, dead) != {} {
      MeasureDrops(|ZombieSet(s, dead)|, |ZombieSet(t, dead)|, s.counter, t.counter, Iterate(s, ev).s.counter, ChecksZombies(s));
    }
  }

  /**
   When the check is due: a quiet iteration reclaims exactly one zombie if the counter is 9 or fewer than
   10 slots are free, so with few free slots every iteration does; otherwise it touches no slot.
   */
  lemma CheckDueIff(s: State, ev: Event, dead: set<int>)
    requires Steady(s) && IsQuiet(ev, dead)
    ensures Iterate(s, ev).Go?
    ensures var t := Iterate(s, ev).s;
            if ZombieSet(s, dead) != {} && (s.counter == 9 || s.freeCount < 10) then
              |ZombieSet(t, dead)| == |ZombieSet(s, dead)| - 1 && t.freeCount == s.freeCount + 1 && t.counter == s.counter
            else
              && t.used == s.used && t.free == s.free && t.counter == (s.counter + 1) % 10
              && forall p: Slot :: SameProcess(s.procs[p], t.procs[p])
  {
    QuietForm(s, ev, dead);
    QuietPass(s, ev, dead);
    QuietRest(s, Walk(s, s.used, ev).s, ev.request, dead);
  }

  ghost predicate AllQuiet(evs: seq<Event>, dead: set<int>)
  {
    forall i :: 0 <= i < |evs| ==> IsQuiet(evs[i], dead)
  }

  /**
   After as many quiet iterations as there are zombies, plus at most nine for the counter, every
   zombie has been reclaimed and its slot is free; in every quiet run a used process that is connected,
   or whose pid is unknown or exists, is still where it was.
   */
  lemma {:induction false} ZombiesReclaimed(s: State, evs: seq<Event>, dead: set<int>)
    requires Steady(s) && AllQuiet(evs, dead)
    ensures AllInBounds(evs) && Run(s, evs).Go? && Steady(Run(s, evs).s)
    ensures |evs| >= |ZombieSet(s, dead)| + 9 - s.counter ==> ZombieSet(Run(s, evs).s, dead) == {}
    ensures ZombieSet(Run(s, evs).s, dead) <= ZombieSet(s, dead)
    ensures KeepsLive(s, Run(s, evs).s, dead) && ReclaimedFree(s, Run(s, evs).s, dead)
    decreases |evs|
  {
    assert forall i :: 0 <= i < |evs| ==> IsQuiet(evs[i], dead);
    if evs != [] {
      var rest := evs[1..];
      assert forall i :: 0 <= i < |rest| ==> rest[i] == evs[i + 1];
      QuietIteration(s, evs[0], dead);
      ZombiesReclaimed(Iterate(s, evs[0]).s, rest, dead);
      ReclaimedOn(s, Iterate(s, evs[0]).s, Run(s, evs).s, dead);
    }
  }
}
