/** Exactly-once effect: whatever is retried, reordered or lost, one object key
    leads to at most one accepted mail. */
module Exactness {
  import opened Common
  import opened Schema
  import opened Ingest
  import opened World
  import opened Frames
  import Pipeline

  predicate MailSound(sent: map<string, Message>, store: set<string>, mail: Email) {
    && mail.origin in sent && sent[mail.origin].alias == mail.alias
    && (mail.key == None || mail.key == Some(mail.origin))
    // a stored object is an accepted mail's, and that mail still points at it
    && (mail.origin in store ==> mail.status != Error && mail.key.Some?)
  }

  predicate SentSound(sent: map<string, Message>) {
    forall k :: k in sent ==> sent[k].key == k && |k| <= 512
  }

  predicate PlacesSound(s: World) {
    && s.store <= s.sent.Keys && s.queue <= s.sent.Keys && s.uploading <= s.sent.Keys
    && forall f :: f in s.flights ==> f.key in s.sent
  }

  // keys in every place are keys that were sent
  predicate WireSound(s: World) {
    SentSound(s.sent) && PlacesSound(s)
  }

  predicate MailsSound(s: World) {
    && (forall i :: 0 <= i < |s.t.emails| ==> MailSound(s.sent, s.store, s.t.emails[i]))
    && (forall i :: i in s.purging ==> i < |s.t.emails| && s.t.emails[i].origin !in s.store)
  }

  predicate KeysUnique(emails: seq<Email>) {
    forall i, j :: 0 <= i < j < |emails| && emails[i].key.Some? ==> emails[i].key != emails[j].key
  }

  // the heart of it: two accepted mails never share an object key
  predicate AcceptedOnce(emails: seq<Email>) {
    forall i, j :: 0 <= i < j < |emails| && emails[i].status != Error && emails[j].status != Error ==>
      emails[i].origin != emails[j].origin
  }

  predicate Exact(s: World) {
    WireSound(s) && MailsSound(s) && KeysUnique(s.t.emails) && AcceptedOnce(s.t.emails)
  }

  // ---- every step but a delivery -----------------------------------------------------

  lemma OthersSend(p: Policy, s: World, step: Step)
    requires Enabled(p, s, step) && !step.Handle? && SentSound(s.sent)
    ensures SentSound(Next(p, s, step).sent)
  {
  }

  lemma OthersPlace(p: Policy, s: World, step: Step)
    requires Enabled(p, s, step) && !step.Handle? && PlacesSound(s)
    ensures PlacesSound(Next(p, s, step))
  {
  }

  lemma WireStep(p: Policy, s: World, step: Step)
    requires Enabled(p, s, step) && WireSound(s)
    ensures WireSound(Next(p, s, step))
  {
    if step.Handle? {
      HandleStep(p, s, step);
    } else {
      OthersSend(p, s, step);
      OthersPlace(p, s, step);
    }
  }

  // what the other steps do to the object store and the sweeps
  predicate StoreKept(s: World, s': World) {
    && (forall k :: k in s.sent ==> k in s'.sent && s'.sent[k] == s.sent[k])
    && (forall k :: k in s'.store ==> k in s.store || k !in s.sent)
    && (forall i :: i in s'.purging && i !in s.purging ==>
          i < |s.t.emails| && s.t.emails[i].key.Some? && s.t.emails[i].key.value !in s'.store)
  }

  lemma OtherStepsKeepStore(p: Policy, s: World, step: Step)
    requires Enabled(p, s, step) && !step.Handle?
    ensures StoreKept(s, Next(p, s, step)) && NulledBy(step) <= s.purging
  {
  }

  lemma MailsKeptSound(s: World, s': World, nulled: set<nat>)
    requires MailsSound(s) && MailsKept(s.t.emails, s'.t.emails, nulled) && StoreKept(s, s') && nulled <= s.purging
    ensures MailsSound(s')
  {
    forall i | 0 <= i < |s'.t.emails| ensures MailSound(s'.sent, s'.store, s'.t.emails[i]) {
      assert MailSound(s.sent, s.store, s.t.emails[i]) && SameMail(s.t.emails[i], s'.t.emails[i], i in nulled);
    }
    forall i | i in s'.purging ensures i < |s'.t.emails| && s'.t.emails[i].origin !in s'.store {
      assert MailSound(s.sent, s.store, s.t.emails[i]) && SameMail(s.t.emails[i], s'.t.emails[i], i in nulled);
    }
  }

  lemma MailsKeptUnique(a: seq<Email>, b: seq<Email>, nulled: set<nat>)
    requires MailsKept(a, b, nulled) && KeysUnique(a) && AcceptedOnce(a)
    ensures KeysUnique(b) && AcceptedOnce(b)
  {
    forall i, j | 0 <= i < j < |b|
      ensures b[i].key.Some? ==> b[i].key != b[j].key
      ensures b[i].status != Error && b[j].status != Error ==> b[i].origin != b[j].origin
    {
      assert SameMail(a[i], b[i], i in nulled) && SameMail(a[j], b[j], j in nulled);
    }
  }

  // ---- deliveries ---------------------------------------------------------------------

  // a mail enters the table under a key no row has; if it is accepted, its object
  // still exists, so no accepted mail of that key can have been purged before
  lemma MailAdded(s: World, s': World, mail: Email)
    requires Exact(s) && s'.t.emails == s.t.emails + [mail]
    requires s'.store == s.store && s'.sent == s.sent && s'.purging == s.purging
    requires mail.origin in s.sent && s.sent[mail.origin].alias == mail.alias && mail.key == Some(mail.origin)
    requires !Owned(s.t.emails, mail.origin)
    requires mail.status != Error <==> mail.origin in s.store
    ensures MailsSound(s') && KeysUnique(s'.t.emails) && AcceptedOnce(s'.t.emails)
  {
    forall i | 0 <= i < |s.t.emails|
      ensures s.t.emails[i].key != mail.key
      ensures s.t.emails[i].status != Error && mail.status != Error ==> s.t.emails[i].origin != mail.origin
    {
      assert MailSound(s.sent, s.store, s.t.emails[i]);
    }
  }

  lemma DeliveryExact(p: Policy, s: World, step: Step)
    requires step.Handle? && Enabled(p, s, step) && Exact(s)
    ensures Exact(Next(p, s, step))
  {
    WireStep(p, s, step);
    HandleStep(p, s, step);
    var s' := Next(p, s, step);
    var f := step.flight;
    var m := s.sent[f.key];
    assert Key(m) == f.key;
    if s'.t == s.t {
      forall i | 0 <= i < |s'.t.emails| ensures MailSound(s'.sent, s'.store, s'.t.emails[i]) {
        assert MailSound(s.sent, s.store, s.t.emails[i]);
      }
    } else if Missed(p, s, s', m, f.at) {
      MailAdded(s, s', NewMail(m, f.at).(status := Error));
    } else {
      AcceptWrites(s.t, m, f.at, Pipeline.Run(step.reading), step.pick);
      var n := |s.t.emails|;
      assert s'.t.emails == s.t.emails + [s'.t.emails[n]];
      MailAdded(s, s', s'.t.emails[n]);
    }
  }

  lemma ExactStep(p: Policy, s: World, step: Step)
    requires Enabled(p, s, step) && Exact(s) && RowsHaveMails(s.t)
    ensures Exact(Next(p, s, step))
  {
    if step.Handle? {
      DeliveryExact(p, s, step);
    } else {
      WireStep(p, s, step);
      OtherSteps(p, s, step);
      OtherStepsKeepStore(p, s, step);
      MailsKeptSound(s, Next(p, s, step), NulledBy(step));
      MailsKeptUnique(s.t.emails, Next(p, s, step).t.emails, NulledBy(step));
    }
  }
}
