/** No stored object is forgotten, and no orphan deletion hits an owned object
    unless two deliveries of one key overlap. */
module Conservation {
  import opened Common
  import opened Schema
  import opened Ingest
  import opened World
  import opened Frames
  import opened Exactness

  // who still knows about an object
  predicate Accounted(s: World, key: string) {
    Owned(s.t.emails, key) || key in s.uploading || key in s.queue || key in s.dead || key in s.leaked
  }

  predicate Conserved(s: World) {
    forall k :: k in s.store ==> Accounted(s, k)
  }

  // objects are lost track of only by a worker crash between upload and send, or by a
  // best-effort deletion that failed
  predicate Leaks(step: Step) {
    step.WorkerCrash? || (step.Handle? && step.deleteFails)
  }

  lemma OwnedStays(a: seq<Email>, b: seq<Email>, nulled: set<nat>, key: string)
    requires MailsKept(a, b, nulled) && Owned(a, key)
    requires forall i :: 0 <= i < |a| && i in nulled ==> a[i].key != Some(key)
    ensures Owned(b, key)
  {
    var i :| 0 <= i < |a| && a[i].key == Some(key);
    assert SameMail(a[i], b[i], i in nulled);
  }

  lemma OwnedGrows(a: seq<Email>, b: seq<Email>, key: string)
    requires |a| <= |b| && b[..|a|] == a && Owned(a, key)
    ensures Owned(b, key)
  {
    var i :| 0 <= i < |a| && a[i].key == Some(key);
    assert b[i] == a[i];
  }

  lemma OwnedBefore(a: seq<Email>, b: seq<Email>, key: string)
    requires |a| <= |b| && b[..|a|] == a && Owned(b, key)
    requires forall i :: |a| <= i < |b| ==> b[i].key != Some(key)
    ensures Owned(a, key)
  {
    var i :| 0 <= i < |b| && b[i].key == Some(key);
    assert a[i] == b[i];
  }

  // the other steps move keys between places, or drop them where their object is gone
  lemma OtherStepsMoveKeys(p: Policy, s: World, step: Step)
    requires Enabled(p, s, step) && !step.Handle?
    ensures var s' := Next(p, s, step);
            forall k :: k in s'.store ==>
              && (k in s.store || k in s'.uploading)
              && (k in s.uploading ==> k in s'.uploading || k in s'.queue || k in s'.leaked)
              && (k in s.queue ==> k in s'.queue || k in s'.dead || Owned(s.t.emails, k))
              && (k in s.dead ==> k in s'.dead)
              && (k in s.leaked ==> k in s'.leaked)
    ensures !Leaks(step) ==> Next(p, s, step).leaked == s.leaked
  {
  }

  lemma NulledAreGone(s: World, nulled: set<nat>)
    requires MailsSound(s) && nulled <= s.purging
    ensures forall i :: i in nulled ==>
                i < |s.t.emails| && (s.t.emails[i].key.Some? ==> s.t.emails[i].key.value !in s.store)
  {
    forall i | i in nulled
      ensures i < |s.t.emails| && (s.t.emails[i].key.Some? ==> s.t.emails[i].key.value !in s.store)
    {
      assert MailSound(s.sent, s.store, s.t.emails[i]);
    }
  }

  lemma OtherStepsConserve(p: Policy, s: World, step: Step)
    requires Enabled(p, s, step) && !step.Handle? && RowsHaveMails(s.t) && Exact(s) && Conserved(s)
    ensures Conserved(Next(p, s, step))
  {
    var s' := Next(p, s, step);
    OtherSteps(p, s, step);
    OtherStepsMoveKeys(p, s, step);
    OtherStepsKeepStore(p, s, step);
    NulledAreGone(s, NulledBy(step));
    forall k | k in s'.store ensures Accounted(s', k) {
      if k in s.store && Owned(s.t.emails, k) {
        OwnedStays(s.t.emails, s'.t.emails, NulledBy(step), k);
      }
    }
  }

  lemma DeliveryConserves(p: Policy, s: World, s': World, f: Flight)
    requires WireSound(s) && f.key in s.sent && DeliveryOf(p, s, s', f) && Conserved(s)
    ensures Conserved(s')
  {
    assert Key(s.sent[f.key]) == f.key;
    forall k | k in s'.store ensures Accounted(s', k) {
      assert Accounted(s, k);
      if Owned(s.t.emails, k) {
        OwnedGrows(s.t.emails, s'.t.emails, k);
      }
    }
  }

  lemma DeliveryLeaks(p: Policy, s: World, step: Step)
    requires step.Handle? && Enabled(p, s, step) && !Leaks(step)
    ensures Next(p, s, step).leaked == s.leaked
  {
  }

  lemma ConservedStep(p: Policy, s: World, step: Step)
    requires Enabled(p, s, step) && RowsHaveMails(s.t) && Exact(s) && Conserved(s)
    ensures Conserved(Next(p, s, step))
    ensures !Leaks(step) ==> Next(p, s, step).leaked == s.leaked
  {
    if step.Handle? {
      DeliveryStep(p, s, step);
      DeliveryConserves(p, s, Next(p, s, step), step.flight);
      if !Leaks(step) {
        DeliveryLeaks(p, s, step);
      }
    } else {
      OtherStepsConserve(p, s, step);
      OtherStepsMoveKeys(p, s, step);
    }
  }

  // ---- ownership -----------------------------------------------------------------------

  // an accepted mail that still points at its object has it, unless the purge or the
  // bucket lifecycle took it
  predicate OwnersHold(s: World) {
    forall i :: 0 <= i < |s.t.emails| && s.t.emails[i].status != Error && s.t.emails[i].key.Some? ==>
      s.t.emails[i].key.value in s.store + s.reaped
  }

  // in runs without overlap a flight is alone on its key, and no row has the key yet
  predicate FlightsAlone(s: World) {
    && (forall f :: f in s.flights ==> s.flights[f] == 1 && !Owned(s.t.emails, f.key))
    && (forall f, g :: f in s.flights && g in s.flights && f.key == g.key ==> f == g)
  }

  // what makes orphan deletions safe
  predicate Guarded(p: Policy, s: World) {
    p.recheck || (p.exclusive && FlightsAlone(s))
  }

  lemma OwnedOnlyBefore(a: seq<Email>, b: seq<Email>, nulled: set<nat>, key: string)
    requires MailsKept(a, b, nulled) && Owned(b, key)
    ensures Owned(a, key)
  {
    var i :| 0 <= i < |b| && b[i].key == Some(key);
    assert SameMail(a[i], b[i], i in nulled);
  }

  lemma OtherStepsFlights(p: Policy, s: World, step: Step)
    requires Enabled(p, s, step) && !step.Handle?
    ensures var s' := Next(p, s, step);
            s'.flights == s.flights ||
            (step.Deliver? && !Owned(s.t.emails, step.key) && (p.exclusive ==> !InFlight(s, step.key)) &&
             s'.flights == s.flights + multiset{Flight(step.key, s.clock)} && s'.t == s.t)
    ensures var s' := Next(p, s, step); s.reaped <= s'.reaped && s.store <= s'.store + s'.reaped
  {
  }

  lemma OtherStepsAlone(p: Policy, s: World, step: Step)
    requires Enabled(p, s, step) && !step.Handle? && RowsHaveMails(s.t) && p.exclusive && FlightsAlone(s)
    ensures FlightsAlone(Next(p, s, step))
  {
    var s' := Next(p, s, step);
    OtherSteps(p, s, step);
    OtherStepsFlights(p, s, step);
    forall f | f in s'.flights ensures s'.flights[f] == 1 && !Owned(s'.t.emails, f.key) {
      if Owned(s'.t.emails, f.key) {
        OwnedOnlyBefore(s.t.emails, s'.t.emails, NulledBy(step), f.key);
      }
    }
  }

  lemma DeliveryAlone(p: Policy, s: World, s': World, f: Flight)
    requires WireSound(s) && f in s.flights && f.key in s.sent && DeliveryOf(p, s, s', f) && FlightsAlone(s)
    ensures FlightsAlone(s')
  {
    assert Key(s.sent[f.key]) == f.key;
    forall g | g in s'.flights ensures s'.flights[g] == 1 && !Owned(s'.t.emails, g.key) {
      assert g in s.flights && g.key != f.key;
      if Owned(s'.t.emails, g.key) {
        OwnedBefore(s.t.emails, s'.t.emails, g.key);
      }
    }
  }

  lemma GuardedStep(p: Policy, s: World, step: Step)
    requires Enabled(p, s, step) && RowsHaveMails(s.t) && Exact(s) && Guarded(p, s)
    ensures Guarded(p, Next(p, s, step))
  {
    if !p.recheck {
      if step.Handle? {
        DeliveryStep(p, s, step);
        DeliveryAlone(p, s, Next(p, s, step), step.flight);
      } else {
        OtherStepsAlone(p, s, step);
      }
    }
  }

  // an owned object survives a guarded delivery
  lemma DeliveryOwners(p: Policy, s: World, s': World, f: Flight)
    requires WireSound(s) && f in s.flights && f.key in s.sent && DeliveryOf(p, s, s', f)
    requires Guarded(p, s) && OwnersHold(s)
    ensures OwnersHold(s')
  {
    assert Key(s.sent[f.key]) == f.key;
    forall i | 0 <= i < |s'.t.emails| && s'.t.emails[i].status != Error && s'.t.emails[i].key.Some?
      ensures s'.t.emails[i].key.value in s'.store + s'.reaped
    {
      assert i < |s.t.emails| ==> s.t.emails[i] == s'.t.emails[i];
    }
  }

  lemma OthersOwners(s: World, s': World, nulled: set<nat>)
    requires MailsKept(s.t.emails, s'.t.emails, nulled) && s.reaped <= s'.reaped && s.store <= s'.store + s'.reaped
    requires OwnersHold(s)
    ensures OwnersHold(s')
  {
    forall i | 0 <= i < |s'.t.emails| && s'.t.emails[i].status != Error && s'.t.emails[i].key.Some?
      ensures s'.t.emails[i].key.value in s'.store + s'.reaped
    {
      assert SameMail(s.t.emails[i], s'.t.emails[i], i in nulled);
    }
  }

  lemma OwnersStep(p: Policy, s: World, step: Step)
    requires Enabled(p, s, step) && RowsHaveMails(s.t) && Exact(s) && Guarded(p, s) && OwnersHold(s)
    ensures OwnersHold(Next(p, s, step))
  {
    if step.Handle? {
      DeliveryStep(p, s, step);
      DeliveryOwners(p, s, Next(p, s, step), step.flight);
    } else {
      OtherSteps(p, s, step);
      OtherStepsFlights(p, s, step);
      OthersOwners(s, Next(p, s, step), NulledBy(step));
    }
  }

  // an object a delivery takes away is its own, and no row points at it
  lemma OrphanIsUnowned(p: Policy, s: World, s': World, f: Flight, key: string)
    requires WireSound(s) && f in s.flights && f.key in s.sent && DeliveryOf(p, s, s', f) && Guarded(p, s)
    requires key in s.store && key !in s'.store
    ensures key == f.key && !Owned(s.t.emails, key) && !Owned(s'.t.emails, key)
  {
    assert Key(s.sent[f.key]) == f.key;
  }
}
