/**
 * IpChangeConfirmForm: the confirmation step of an IP change. buildForm
 * previews the notification and says who will receive it; submitForm
 * sends it, applies the registrar delta, deletes the delete_ip ranges,
 * exports when configured, saves the change, then marks only the change
 * object completed.
 */
module IpChangeConfirmForm {
  import opened Wrappers
  import opened PhpArrays
  import opened Storage
  import opened Routes
  import opened EmailBody
  import opened RangeDeletion
  import opened RegistrarDelta
  import opened IpChangeEntity

  /** The sentence under the preview. */
  datatype Summary = WillBeSentTo(registrarLabels: string) | NotNotified

  /** The parts of the confirm form the module decides. */
  datatype ConfirmView = ConfirmView(preview: string, summary: Summary, back: Route, cancel: Route)

  /** The registrars of a change that still load. */
  function Recipients(c: ChangeRow, registrars: map<RegistrarId, Registrar>): seq<RegistrarId> {
    Referenced(c.registrars, registrars.Keys)
  }

  /**
   * The summary: the labels of the registrars that load, comma separated,
   * unless there are none or notification is disabled.
   */
  function SummaryOf(c: ChangeRow, registrars: map<RegistrarId, Registrar>): (s: Summary)
    ensures s.WillBeSentTo? <==> !c.disableNotification && exists id :: id in c.registrars && id in registrars
    ensures s.WillBeSentTo? ==> s.registrarLabels == Implode(", ", Labels(Recipients(c, registrars), registrars))
  {
    var ids := Recipients(c, registrars);
    if ids != [] && !c.disableNotification then WillBeSentTo(Implode(", ", Labels(ids, registrars)))
    else
      assert forall id :: id in c.registrars && id in registrars ==> id in ids;
      NotNotified
  }

  /** The `$registrars[] = $registrar->label()` loop. */
  method CollectLabels(ids: seq<RegistrarId>, registrars: map<RegistrarId, Registrar>) returns (labels: seq<string>)
    requires forall id :: id in ids ==> id in registrars
    ensures labels == Labels(ids, registrars)
  {
    labels := [];
    for i := 0 to |ids|
      invariant labels == Labels(ids[..i], registrars)
    {
      assert ids[..i + 1][..i] == ids[..i];
      labels := labels + [registrars[ids[i]].name];
    }
    assert ids[..|ids|] == ids;
  }

  /** The summary sentence: the label loop, then the choice between the two texts. */
  method Summarize(c: ChangeRow, registrars: map<RegistrarId, Registrar>) returns (summary: Summary)
    ensures summary == SummaryOf(c, registrars)
  {
    var labels := CollectLabels(Recipients(c, registrars), registrars);
    summary := if labels != [] && !c.disableNotification then WillBeSentTo(Implode(", ", labels)) else NotNotified;
  }

  /**
   * buildForm(): the preview is getEmailBody() for the ranges as stored now;
   * Go Back leads to the edit form, Cancel to the delete form.
   */
  method BuildForm(entity: IpChange, store: EntityStore) returns (view: ConfirmView)
    requires entity.id.Some? && LabelsLoad(entity.Row(), store.ranges, store.organizations)
    ensures view == ConfirmView(Render(Sections(entity.Row(), store.ranges, store.organizations)),
                                SummaryOf(entity.Row(), store.registrars),
                                ChangeEditForm(entity.id.value), ChangeDeleteForm(entity.id.value))
  {
    var preview := entity.GetEmailBody(store);
    var summary := Summarize(entity.Row(), store.registrars);
    view := ConfirmView(preview, summary, ChangeEditForm(entity.id.value), ChangeDeleteForm(entity.id.value));
  }

  // ---------------------------------------------------------------------------
  // submitForm

  /**
   * The stored ranges after submitForm: the delta of sendRegistrarEmails
   * (when its mail went out), the delta of setIpRangeRegistrars with the
   * current user as owner, then the delete_ip ranges removed.
   */
  function SubmitRanges(m: map<RangeId, RangeRow>, c: ChangeRow, o: SendOutcome, user: UserId)
    : (r: map<RangeId, RangeRow>)
    ensures r.Keys == m.Keys - Ids(c.deleteIp)
  {
    var m1 := if o == Sent then Applied(m, c, None) else m;
    Applied(m1, c, Some(user)) - Ids(c.deleteIp)
  }

  /**
   * The log of submitForm's steps after sendRegistrarEmails: the saves of
   * setIpRangeRegistrars, the deletions, the export when configured, and the
   * save of the change.
   */
  function FinishLog(log: seq<Event>, c: ChangeRow, id: ChangeId, m: map<RangeId, RangeRow>, exported: bool)
    : seq<Event>
  {
    var l := DeltaLog(log, m, c) + Deletions(c.deleteIp, m.Keys);
    (if exported then l + [Exported(id)] else l) + [ChangeSaved(id)]
  }

  /** The log after submitForm: sendRegistrarEmails' events, then the rest. */
  function SubmitLog(o: SendOutcome, log: seq<Event>, c: ChangeRow, id: ChangeId, m: map<RangeId, RangeRow>,
                     registrars: map<RegistrarId, Registrar>, organizations: map<OrgId, string>, exported: bool)
    : seq<Event>
  {
    var m1 := if o == Sent then Applied(m, c, None) else m;
    FinishLog(SendLog(o, log, c, m, registrars, organizations), c, id, m1, exported)
  }

  /**
   * The redirect to the IP manager of the change's organization; None when
   * that organization does not load, where the source fails with a PHP
   * error after every other step of submitForm has taken effect.
   */
  function Redirect(org: OrgId, organizations: map<OrgId, string>): (r: Option<Route>)
    ensures r.Some? <==> org in organizations
    ensures r.Some? ==> r.value == IpManager(org)
  {
    if org in organizations then Some(IpManager(org)) else None
  }

  /** The submitted ranges keep their organizations, so the labels a change reads still load. */
  lemma SubmitKeepsLabels(c': ChangeRow, m: map<RangeId, RangeRow>, c: ChangeRow, o: SendOutcome, user: UserId,
                          organizations: map<OrgId, string>)
    requires LabelsLoad(c', m, organizations)
    ensures LabelsLoad(c', SubmitRanges(m, c, o, user), organizations)
  {
    var m1 := if o == Sent then Applied(m, c, None) else m;
    if o == Sent {
      AppliedKeepsLabels(c', m, c, None, organizations);
    }
    AppliedKeepsLabels(c', m1, c, Some(user), organizations);
    var m2, m' := Applied(m1, c, Some(user)), SubmitRanges(m, c, o, user);
    forall ids | ids == c'.addIp || ids == c'.addNewIp || ids == c'.deleteIp
      ensures RangeLabelsLoad(ids, m', organizations)
    {
      RangeLabelsLoadMeans(ids, m2, organizations);
      RangeLabelsLoadMeans(ids, m', organizations);
    }
  }

  /**
   * submitForm() past sendRegistrarEmails, with the save and setStatus(TRUE)
   * in the order `statusFirst` says.
   */
  method Finish(entity: IpChange, store: EntityStore, currentUser: UserId, exportConfigured: bool, statusFirst: bool)
    requires store.Valid() && entity.id.Some?
    modifies entity`status, entity`id
    modifies store`ranges, store`nextRangeId, store`changes, store`nextChangeId, store`log
    ensures store.Valid()
    ensures entity.id == old(entity.id) && entity.IsCompleted()
    ensures store.ranges == Applied(old(store.ranges), old(entity.Row()), Some(currentUser)) - Ids(old(entity.deleteIp))
    ensures store.changes == old(store.changes)[old(entity.id).value :=
                               if statusFirst then old(entity.Row()).(status := true) else old(entity.Row())]
    ensures store.log == FinishLog(old(store.log), old(entity.Row()), old(entity.id).value, old(store.ranges),
                                   exportConfigured)
  {
    var c := entity.Row();
    entity.SetIpRangeRegistrars(store, currentUser);
    DeleteLoaded(store, entity.deleteIp);
    if exportConfigured {
      store.Export(entity.id.value);
    }
    if statusFirst {
      entity.SetStatus(true);
      var _ := entity.Save(store);
    } else {
      var _ := entity.Save(store);
      entity.SetStatus(true);
    }
  }

  /**
   * submitForm() as written: setStatus(TRUE) comes after save(), so the
   * stored change keeps the status it had and only the entity object is
   * marked completed.
   */
  method SubmitForm(entity: IpChange, store: EntityStore, mailResult: bool, currentUser: UserId, exportConfigured: bool)
    returns (outcome: SendOutcome, redirect: Option<Route>)
    requires store.Valid() && entity.id.Some?
    requires !entity.disableNotification && !entity.status ==>
      LabelsLoad(entity.Row(), store.ranges, store.organizations)
    modifies entity`status, entity`id
    modifies store`ranges, store`nextRangeId, store`changes, store`nextChangeId, store`log
    ensures store.Valid()
    ensures outcome == Outcome(old(entity.Row()), mailResult)
    ensures store.ranges == SubmitRanges(old(store.ranges), old(entity.Row()), outcome, currentUser)
    ensures store.changes == old(store.changes)[old(entity.id).value := old(entity.Row())]
    ensures entity.id == old(entity.id) && entity.IsCompleted()
    ensures store.log == SubmitLog(outcome, old(store.log), old(entity.Row()), old(entity.id).value, old(store.ranges),
                                   store.registrars, store.organizations, exportConfigured)
    ensures redirect == Redirect(old(entity.organization), store.organizations)
  {
    var c := entity.Row();
    outcome := entity.SendRegistrarEmails(store, mailResult);
    assert entity.Row() == c;
    Finish(entity, store, currentUser, exportConfigured, false);
    redirect := if entity.organization in store.organizations then Some(IpManager(entity.organization)) else None;
  }

  /** submitForm() with setStatus(TRUE) before save(): the stored change is completed. */
  method SubmitFormCorrected(entity: IpChange, store: EntityStore, mailResult: bool, currentUser: UserId,
                             exportConfigured: bool)
    returns (outcome: SendOutcome, redirect: Option<Route>)
    requires store.Valid() && entity.id.Some?
    requires !entity.disableNotification && !entity.status ==>
      LabelsLoad(entity.Row(), store.ranges, store.organizations)
    modifies entity`status, entity`id
    modifies store`ranges, store`nextRangeId, store`changes, store`nextChangeId, store`log
    ensures store.Valid()
    ensures outcome == Outcome(old(entity.Row()), mailResult)
    ensures store.ranges == SubmitRanges(old(store.ranges), old(entity.Row()), outcome, currentUser)
    ensures store.changes == old(store.changes)[old(entity.id).value := old(entity.Row()).(status := true)]
    ensures entity.id == old(entity.id) && entity.IsCompleted()
    ensures store.log == SubmitLog(outcome, old(store.log), old(entity.Row()), old(entity.id).value, old(store.ranges),
                                   store.registrars, store.organizations, exportConfigured)
    ensures redirect == Redirect(old(entity.organization), store.organizations)
  {
    var c := entity.Row();
    outcome := entity.SendRegistrarEmails(store, mailResult);
    assert entity.Row() == c;
    Finish(entity, store, currentUser, exportConfigured, true);
    redirect := if entity.organization in store.organizations then Some(IpManager(entity.organization)) else None;
  }

  // ---------------------------------------------------------------------------
  // Mails and resubmission

  /** The number of mails handed to the transport in a log. */
  function MailCount(log: seq<Event>): nat {
    if log == [] then 0
    else MailCount(log[..|log| - 1]) + (if log[|log| - 1].MailSent? then 1 else 0)
  }

  lemma {:induction false} MailCountAppend(a: seq<Event>, b: seq<Event>)
    ensures MailCount(a + b) == MailCount(a) + MailCount(b)
  {
    if b != [] {
      var n := |b| - 1;
      assert (a + b)[..|a + b| - 1] == a + b[..n];
      MailCountAppend(a, b[..n]);
    } else {
      assert a + b == a;
    }
  }

  lemma {:induction false} NoMails(log: seq<Event>)
    requires forall e :: e in log ==> !e.MailSent?
    ensures MailCount(log) == 0
  {
    if log != [] {
      NoMails(log[..|log| - 1]);
    }
  }

  /** The range saves of a delta send no mail. */
  lemma DeltaSendsNothing(log: seq<Event>, m: map<RangeId, RangeRow>, c: ChangeRow)
    ensures MailCount(DeltaLog(log, m, c)) == MailCount(log)
  {
    var adds, deletes := Saves(Referenced(c.addIp, m.Keys)), Saves(Referenced(c.deleteIp, m.Keys));
    NoMails(adds);
    NoMails(deletes);
    MailCountAppend(log, adds);
    MailCountAppend(log + adds, deletes);
  }

  lemma MailCountSnoc(log: seq<Event>, e: Event)
    ensures MailCount(log + [e]) == MailCount(log) + (if e.MailSent? then 1 else 0)
  {
    assert (log + [e])[..|log|] == log;
  }

  /** Saves, deletions, exports and change saves send no mail. */
  lemma FinishSendsNothing(log: seq<Event>, c: ChangeRow, id: ChangeId, m: map<RangeId, RangeRow>, exported: bool)
    ensures MailCount(FinishLog(log, c, id, m, exported)) == MailCount(log)
  {
    var dels := Deletions(c.deleteIp, m.Keys);
    DeletionsOnce(c.deleteIp, m.Keys);
    DeltaSendsNothing(log, m, c);
    NoMails(dels);
    var l := DeltaLog(log, m, c) + dels;
    MailCountAppend(DeltaLog(log, m, c), dels);
    MailCountSnoc(l, Exported(id));
    var l' := if exported then l + [Exported(id)] else l;
    MailCountSnoc(l', ChangeSaved(id));
  }

  /** sendRegistrarEmails mails once exactly when it got past its two guards. */
  lemma SendMails(o: SendOutcome, log: seq<Event>, c: ChangeRow, m: map<RangeId, RangeRow>,
                  registrars: map<RegistrarId, Registrar>, organizations: map<OrgId, string>)
    ensures MailCount(SendLog(o, log, c, m, registrars, organizations))
         == MailCount(log) + (if o == Sent || o == SendFailed then 1 else 0)
  {
    if o == Sent || o == SendFailed {
      var n := Notification(c, m, registrars, organizations);
      MailCountSnoc(log, n);
      if o == Sent {
        DeltaSendsNothing(log + [n], m, c);
      }
    }
  }

  /** A submission mails once exactly when sendRegistrarEmails got past its two guards. */
  lemma SubmitMails(o: SendOutcome, log: seq<Event>, c: ChangeRow, id: ChangeId, m: map<RangeId, RangeRow>,
                    registrars: map<RegistrarId, Registrar>, organizations: map<OrgId, string>, exported: bool)
    ensures MailCount(SubmitLog(o, log, c, id, m, registrars, organizations, exported))
         == MailCount(log) + (if o == Sent || o == SendFailed then 1 else 0)
  {
    var m1 := if o == Sent then Applied(m, c, None) else m;
    SendMails(o, log, c, m, registrars, organizations);
    FinishSendsNothing(SendLog(o, log, c, m, registrars, organizations), c, id, m1, exported);
  }

  /**
   * As written, the stored change is left unconfirmed, so submitting the
   * confirm form a second time (the change reloaded from storage) mails the
   * registrars again.
   */
  lemma ResubmitMailsAgain(c: ChangeRow, id: ChangeId, m: map<RangeId, RangeRow>, log: seq<Event>,
                           registrars: map<RegistrarId, Registrar>, organizations: map<OrgId, string>,
                           r1: bool, r2: bool, user: UserId, exported: bool)
    requires !c.disableNotification && !c.status
    ensures var o1 := Outcome(c, r1);
      var log1 := SubmitLog(o1, log, c, id, m, registrars, organizations, exported);
      var m1 := SubmitRanges(m, c, o1, user);
      MailCount(SubmitLog(Outcome(c, r2), log1, c, id, m1, registrars, organizations, exported)) == MailCount(log) + 2
  {
    var o1 := Outcome(c, r1);
    var log1 := SubmitLog(o1, log, c, id, m, registrars, organizations, exported);
    SubmitMails(o1, log, c, id, m, registrars, organizations, exported);
    SubmitMails(Outcome(c, r2), log1, c, id, SubmitRanges(m, c, o1, user), registrars, organizations, exported);
  }

  /** With the status saved, a second submission finds the change completed and mails nothing. */
  lemma ResubmitCorrectedMailsOnce(c: ChangeRow, id: ChangeId, m: map<RangeId, RangeRow>, log: seq<Event>,
                                   registrars: map<RegistrarId, Registrar>, organizations: map<OrgId, string>,
                                   r1: bool, r2: bool, user: UserId, exported: bool)
    requires !c.disableNotification && !c.status
    ensures var o1 := Outcome(c, r1);
      var log1 := SubmitLog(o1, log, c, id, m, registrars, organizations, exported);
      var m1 := SubmitRanges(m, c, o1, user);
      var stored := c.(status := true);
      && Outcome(stored, r2) == AlreadyCompleted
      && MailCount(SubmitLog(Outcome(stored, r2), log1, stored, id, m1, registrars, organizations, exported))
         == MailCount(log) + 1
  {
    var o1 := Outcome(c, r1);
    var log1 := SubmitLog(o1, log, c, id, m, registrars, organizations, exported);
    var stored := c.(status := true);
    SubmitMails(o1, log, c, id, m, registrars, organizations, exported);
    SubmitMails(AlreadyCompleted, log1, stored, id, SubmitRanges(m, c, o1, user), registrars, organizations, exported);
  }

  /** Two submissions of the confirm form as written, each loading the change from storage. */
  method SubmitTwice(store: EntityStore, id: ChangeId, r1: bool, r2: bool, user: UserId, exportConfigured: bool)
    requires store.Valid() && id in store.changes
    requires !store.changes[id].disableNotification && !store.changes[id].status
    requires LabelsLoad(store.changes[id], store.ranges, store.organizations)
    modifies store`ranges, store`nextRangeId, store`changes, store`nextChangeId, store`log
    ensures MailCount(store.log) == MailCount(old(store.log)) + 2
  {
    var e1 := Load(store, id);
    ghost var log0 := store.log;
    var o1, _ := SubmitForm(e1, store, r1, user, exportConfigured);
    SubmitMails(o1, log0, old(store.changes[id]), id, old(store.ranges), store.registrars, store.organizations,
                exportConfigured);
    SubmitKeepsLabels(old(store.changes[id]), old(store.ranges), old(store.changes[id]), o1, user, store.organizations);
    var e2 := Load(store, id);
    ghost var log1 := store.log;
    ghost var m1 := store.ranges;
    var o2, _ := SubmitForm(e2, store, r2, user, exportConfigured);
    SubmitMails(o2, log1, old(store.changes[id]), id, m1, store.registrars, store.organizations, exportConfigured);
  }

  /** Two submissions with the corrected order: the second finds the change completed. */
  method SubmitTwiceCorrected(store: EntityStore, id: ChangeId, r1: bool, r2: bool, user: UserId,
                              exportConfigured: bool)
    requires store.Valid() && id in store.changes
    requires !store.changes[id].disableNotification && !store.changes[id].status
    requires LabelsLoad(store.changes[id], store.ranges, store.organizations)
    modifies store`ranges, store`nextRangeId, store`changes, store`nextChangeId, store`log
    ensures MailCount(store.log) == MailCount(old(store.log)) + 1
  {
    var e1 := Load(store, id);
    ghost var log0 := store.log;
    var o1, _ := SubmitFormCorrected(e1, store, r1, user, exportConfigured);
    SubmitMails(o1, log0, old(store.changes[id]), id, old(store.ranges), store.registrars, store.organizations,
                exportConfigured);
    var e2 := Load(store, id);
    ghost var log1 := store.log;
    ghost var m1 := store.ranges;
    var o2, _ := SubmitFormCorrected(e2, store, r2, user, exportConfigured);
    SubmitMails(o2, log1, old(store.changes[id]).(status := true), id, m1, store.registrars, store.organizations,
                exportConfigured);
  }

  // ---------------------------------------------------------------------------
  // The delta applied twice

  lemma {:induction false} CountReferenced(ids: seq<RangeId>, stored: set<RangeId>, id: RangeId)
    requires id in stored
    ensures Count(Referenced(ids, stored), id) == Count(ids, id)
  {
    if ids != [] {
      CountReferenced(ids[1..], stored, id);
      var head := if ids[0] in stored then [ids[0]] else [];
      assert Referenced(ids, stored) == head + Referenced(ids[1..], stored);
      CountAppend(head, Referenced(ids[1..], stored), id);
    }
  }

  lemma {:induction false} CountAppend(a: seq<RangeId>, b: seq<RangeId>, x: RangeId)
    ensures Count(a + b, x) == Count(a, x) + Count(b, x)
  {
    if a != [] {
      assert (a + b)[1..] == a[1..] + b;
      CountAppend(a[1..], b, x);
    } else {
      assert a + b == b;
    }
  }

  /** One application of a change's add delta to a range it lists in add_ip but not in delete_ip. */
  lemma AppliedAddOnly(m: map<RangeId, RangeRow>, c: ChangeRow, owner: Option<UserId>, id: RangeId)
    requires id in m && id !in c.deleteIp
    ensures id in Applied(m, c, owner)
    ensures Applied(m, c, owner)[id].registrars == m[id].registrars + Repeat(c.registrars, Count(c.addIp, id))
  {
    var adds, deletes := Referenced(c.addIp, m.Keys), Referenced(c.deleteIp, m.Keys);
    var m1 := AddRegistrars(m, adds, c.registrars, owner);
    AddRegistrarsAt(m, adds, c.registrars, owner, id);
    CountReferenced(c.addIp, m.Keys, id);
    RemoveRegistrarsElsewhere(m1, deletes, c.registrars, id);
  }

  /**
   * When the mail goes out, submitForm applies the add delta twice (once in
   * sendRegistrarEmails, once in setIpRangeRegistrars): a range listed once in
   * add_ip ends with the change's registrars appended twice.
   */
  lemma SentAppendsTwice(m: map<RangeId, RangeRow>, c: ChangeRow, user: UserId, id: RangeId)
    requires id in m && id !in c.deleteIp
    ensures var k := Count(c.addIp, id);
      SubmitRanges(m, c, Sent, user)[id].registrars
      == m[id].registrars + Repeat(c.registrars, k) + Repeat(c.registrars, k)
  {
    AppliedAddOnly(m, c, None, id);
    var m1 := Applied(m, c, None);
    AppliedAddOnly(m1, c, Some(user), id);
    assert id !in Ids(c.deleteIp);
  }

  /** As a set, the doubled delta leaves a range with its registrars and the change's, as one application would. */
  lemma SentRegistrarSet(m: map<RangeId, RangeRow>, c: ChangeRow, user: UserId, id: RangeId)
    requires id in m && id in c.addIp && id !in c.deleteIp
    ensures Elems(SubmitRanges(m, c, Sent, user)[id].registrars) == Elems(m[id].registrars) + Elems(c.registrars)
  {
    SentAppendsTwice(m, c, user, id);
    var k := Count(c.addIp, id);
    CountPositive(c.addIp, id);
    RepeatElems(c.registrars, k);
    var xs := m[id].registrars + Repeat(c.registrars, k) + Repeat(c.registrars, k);
    assert Elems(xs) == Elems(m[id].registrars) + Elems(Repeat(c.registrars, k)) + Elems(Repeat(c.registrars, k));
  }

  /**
   * After a failed send, whose message tells the user the changes have NOT
   * been applied, submitForm still runs setIpRangeRegistrars and the
   * deletions: a listed range gets the change's registrars appended, and
   * every delete_ip range is gone.
   */
  lemma FailedSendStillApplies(m: map<RangeId, RangeRow>, c: ChangeRow, user: UserId, id: RangeId)
    requires id in m && id in c.addIp && id !in c.deleteIp && c.registrars != []
    ensures id in SubmitRanges(m, c, SendFailed, user)
    ensures SubmitRanges(m, c, SendFailed, user)[id].registrars
         == m[id].registrars + Repeat(c.registrars, Count(c.addIp, id))
    ensures SubmitRanges(m, c, SendFailed, user)[id].registrars != m[id].registrars
    ensures forall d :: d in c.deleteIp ==> d !in SubmitRanges(m, c, SendFailed, user)
  {
    AppliedAddOnly(m, c, Some(user), id);
    assert id !in Ids(c.deleteIp);
    var k := Count(c.addIp, id);
    CountPositive(c.addIp, id);
    assert |Repeat(c.registrars, k)| >= |c.registrars|;
  }
}
