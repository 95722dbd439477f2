/**
 * The ip_change content entity: its creation defaults, accessors, the
 * notification it sends to the selected registrars, and the registrar delta
 * it applies to its ranges.
 */
module IpChangeEntity {
  import opened Wrappers
  import opened PhpArrays
  import opened IpAddress
  import opened Storage
  import opened RegistrarDelta
  import opened EmailBody
  import IpRangeEntity
  import opened MailText
  import opened Html

  /** The logged-in user's account fields that preCreate reads. */
  datatype UserProfile = UserProfile(id: UserId, given: string, family: string, mail: string, phone: string)

  /** The keys of the `$values` array that preCreate looks at. */
  datatype ChangeValues = ChangeValues(
    organization: Option<OrgId>,
    registrars: Option<seq<RegistrarId>>,
    uid: Option<UserId>,
    contactName: Option<(string, string)>,
    contactEmail: Option<string>,
    contactPhone: Option<string>)

  /**
   * preCreate: the organization route parameter, when present, overwrites the
   * organization; `$values += [...]` fills the registrars from the `notify`
   * query parameter and the owner and contact fields from the current user,
   * each only when the caller gave none.
   */
  function PreCreate(values: ChangeValues, routeOrganization: Option<OrgId>, user: UserProfile,
                     notify: seq<RegistrarId>): (r: ChangeValues)
    ensures r.organization == (if routeOrganization.Some? then routeOrganization else values.organization)
    ensures r.registrars == Some(values.registrars.GetOr(notify))
    ensures r.uid == Some(values.uid.GetOr(user.id))
    ensures r.contactName == Some(values.contactName.GetOr((user.given, user.family)))
    ensures r.contactEmail == Some(values.contactEmail.GetOr(user.mail))
    ensures r.contactPhone == Some(values.contactPhone.GetOr(user.phone))
  {
    ChangeValues(
      if routeOrganization.Some? then routeOrganization else values.organization,
      if values.registrars.Some? then values.registrars else Some(notify),
      if values.uid.Some? then values.uid else Some(user.id),
      if values.contactName.Some? then values.contactName else Some((user.given, user.family)),
      if values.contactEmail.Some? then values.contactEmail else Some(user.mail),
      if values.contactPhone.Some? then values.contactPhone else Some(user.phone))
  }

  /** The email addresses of the given registrars, in order. */
  function Emails(ids: seq<RegistrarId>, registrars: map<RegistrarId, Registrar>): (r: seq<string>)
    requires forall id :: id in ids ==> id in registrars
    ensures |r| == |ids|
    ensures forall i :: 0 <= i < |ids| ==> r[i] == registrars[ids[i]].email
  {
    if ids == [] then [] else Emails(ids[..|ids| - 1], registrars) + [registrars[ids[|ids| - 1]].email]
  }

  /**
   * The Bcc list: the email of every selected registrar that still loads, in
   * the change's order, then the operator address.
   */
  function BccList(ids: seq<RegistrarId>, registrars: map<RegistrarId, Registrar>): seq<string> {
    Emails(Referenced(ids, registrars.Keys), registrars) + [OperatorAddress()]
  }

  /** The Bcc list ends with the operator and holds exactly the loadable selected registrars' emails besides. */
  lemma BccListContents(ids: seq<RegistrarId>, registrars: map<RegistrarId, Registrar>)
    ensures var r := BccList(ids, registrars);
      && |r| >= 1 && r[|r| - 1] == OperatorAddress()
      && (forall id :: id in ids && id in registrars ==> registrars[id].email in r)
      && (forall e :: e in r ==> e == OperatorAddress() || exists id :: id in ids && id in registrars && registrars[id].email == e)
      && r[..|r| - 1] == Emails(Referenced(ids, registrars.Keys), registrars)
  {
    var loaded := Referenced(ids, registrars.Keys);
    var emails := Emails(loaded, registrars);
    forall id | id in ids && id in registrars
      ensures registrars[id].email in emails
    {
      var i :| 0 <= i < |loaded| && loaded[i] == id;
      assert emails[i] == registrars[id].email;
    }
    forall e | e in emails
      ensures exists id :: id in ids && id in registrars && registrars[id].email == e
    {
      var i :| 0 <= i < |emails| && emails[i] == e;
      assert loaded[i] in ids && loaded[i] in registrars;
    }
  }

  /** The emails of two lists are those of the first followed by those of the second. */
  lemma EmailsAppend(a: seq<RegistrarId>, b: seq<RegistrarId>, registrars: map<RegistrarId, Registrar>)
    requires forall id :: id in a + b ==> id in registrars
    ensures Emails(a + b, registrars) == Emails(a, registrars) + Emails(b, registrars)
  {
    var l, r := Emails(a + b, registrars), Emails(a, registrars) + Emails(b, registrars);
    assert |l| == |r|;
    forall i | 0 <= i < |l| ensures l[i] == r[i] {
      if i >= |a| {
        assert (a + b)[i] == b[i - |a|];
      }
    }
  }

  /** The emails of the loadable registrars of two lists, the first list's first. */
  lemma EmailsReferencedAppend(a: seq<RegistrarId>, b: seq<RegistrarId>, registrars: map<RegistrarId, Registrar>)
    ensures Emails(Referenced(a + b, registrars.Keys), registrars)
         == Emails(Referenced(a, registrars.Keys), registrars) + Emails(Referenced(b, registrars.Keys), registrars)
  {
    ReferencedAppend(a, b, registrars.Keys);
    EmailsAppend(Referenced(a, registrars.Keys), Referenced(b, registrars.Keys), registrars);
  }

  /**
   * The Bcc list keeps the change's registrar order: the emails of the
   * registrars selected first come first, the operator address last.
   */
  lemma BccListAppend(a: seq<RegistrarId>, b: seq<RegistrarId>, registrars: map<RegistrarId, Registrar>)
    ensures BccList(a + b, registrars)
         == Emails(Referenced(a, registrars.Keys), registrars) + Emails(Referenced(b, registrars.Keys), registrars)
            + [OperatorAddress()]
  {
    EmailsReferencedAppend(a, b, registrars);
  }

  /** When every selected registrar loads, the Bcc list is their emails in the change's order, then the operator. */
  lemma BccListAllLoad(ids: seq<RegistrarId>, registrars: map<RegistrarId, Registrar>)
    requires forall id :: id in ids ==> id in registrars
    ensures BccList(ids, registrars) == Emails(ids, registrars) + [OperatorAddress()]
    ensures forall i :: 0 <= i < |ids| ==> BccList(ids, registrars)[i] == registrars[ids[i]].email
  {
    ReferencedAllStored(ids, registrars.Keys);
  }

  /** The notification a change sends, built from the stored ranges at the time of sending. */
  function Notification(c: ChangeRow, ranges: map<RangeId, RangeRow>, registrars: map<RegistrarId, Registrar>,
                        organizations: map<OrgId, string>): Event
  {
    MailSent(RegistrarEmail, c.contactEmail, Implode(",", BccList(c.registrars, registrars)),
             Render(Sections(c, ranges, organizations)))
  }

  datatype SendOutcome = NotificationDisabled | AlreadyCompleted | Sent | SendFailed

  /**
   * What sendRegistrarEmails does: nothing when notification is disabled,
   * nothing when the change is already completed, otherwise it mails and the
   * transport's result decides whether the ranges are updated.
   */
  function Outcome(c: ChangeRow, mailResult: bool): (o: SendOutcome)
    ensures o == NotificationDisabled <==> c.disableNotification
    ensures o == AlreadyCompleted <==> !c.disableNotification && c.status
    ensures o == Sent <==> !c.disableNotification && !c.status && mailResult
    ensures o == SendFailed <==> !c.disableNotification && !c.status && !mailResult
  {
    if c.disableNotification then NotificationDisabled
    else if c.status then AlreadyCompleted
    else if mailResult then Sent
    else SendFailed
  }

  /** The stored ranges after a change's delta: the add_ip loop, then the delete_ip loop. */
  function Applied(m: map<RangeId, RangeRow>, c: ChangeRow, owner: Option<UserId>): (r: map<RangeId, RangeRow>)
    ensures r.Keys == m.Keys
  {
    var m1 := AddRegistrars(m, Referenced(c.addIp, m.Keys), c.registrars, owner);
    RemoveRegistrars(m1, Referenced(c.deleteIp, m.Keys), c.registrars)
  }

  /** The delta keeps every stored title derived from its range's endpoints. */
  lemma AppliedKeepsTitles(m: map<RangeId, RangeRow>, c: ChangeRow, owner: Option<UserId>)
    requires TitlesFromEndpoints(m)
    ensures TitlesFromEndpoints(Applied(m, c, owner))
  {
    var m1 := AddRegistrars(m, Referenced(c.addIp, m.Keys), c.registrars, owner);
    AddRegistrarsKeepsTitles(m, Referenced(c.addIp, m.Keys), c.registrars, owner);
    RemoveRegistrarsKeepsTitles(m1, Referenced(c.deleteIp, m.Keys), c.registrars);
  }

  /** The delta changes no range's organization, so every label that loaded before still loads. */
  lemma AppliedKeepsLabels(c': ChangeRow, m: map<RangeId, RangeRow>, c: ChangeRow, owner: Option<UserId>,
                           organizations: map<OrgId, string>)
    requires LabelsLoad(c', m, organizations)
    ensures LabelsLoad(c', Applied(m, c, owner), organizations)
  {
    var m1 := AddRegistrars(m, Referenced(c.addIp, m.Keys), c.registrars, owner);
    AddRegistrarsKeepsOrganizations(m, Referenced(c.addIp, m.Keys), c.registrars, owner);
    RemoveRegistrarsKeepsOrganizations(m1, Referenced(c.deleteIp, m.Keys), c.registrars);
    var m' := Applied(m, c, owner);
    forall ids | ids == c'.addIp || ids == c'.addNewIp || ids == c'.deleteIp
      ensures RangeLabelsLoad(ids, m', organizations)
    {
      RangeLabelsLoadMeans(ids, m, organizations);
      RangeLabelsLoadMeans(ids, m', organizations);
    }
  }

  /**
   * The log after a change's delta: one save per loadable add_ip entry, then
   * one per loadable delete_ip entry.
   */
  function DeltaLog(log: seq<Event>, m: map<RangeId, RangeRow>, c: ChangeRow): seq<Event> {
    log + Saves(Referenced(c.addIp, m.Keys)) + Saves(Referenced(c.deleteIp, m.Keys))
  }

  /** The log after sendRegistrarEmails, by outcome. */
  function SendLog(o: SendOutcome, log: seq<Event>, c: ChangeRow, m: map<RangeId, RangeRow>,
                   registrars: map<RegistrarId, Registrar>, organizations: map<OrgId, string>): seq<Event>
  {
    match o
    case NotificationDisabled => log
    case AlreadyCompleted => log
    case Sent => DeltaLog(log + [Notification(c, m, registrars, organizations)], m, c)
    case SendFailed => log + [Notification(c, m, registrars, organizations)]
  }

  class IpChange {
    var id: Option<ChangeId>
    var organization: OrgId
    var addIp: seq<RangeId>
    var addNewIp: seq<RangeId>
    var deleteIp: seq<RangeId>
    var registrars: seq<RegistrarId>
    var disableNotification: bool
    var comment: string
    var contactGiven: string
    var contactFamily: string
    var contactEmail: string
    var contactPhone: string
    var title: string
    var status: bool
    var uid: UserId

    /**
     * A new, unsaved change with the fields preCreate supplies; the range
     * lists start empty and status has its field default FALSE.
     */
    constructor (organization: OrgId, registrars: seq<RegistrarId>, uid: UserId, contactGiven: string,
                 contactFamily: string, contactEmail: string, contactPhone: string)
      ensures id.None? && !IsCompleted()
      ensures Row() == ChangeRow(organization, [], [], [], registrars, false, "", contactGiven, contactFamily,
                                 contactEmail, contactPhone, "", false, uid)
    {
      id := None;
      this.organization := organization;
      addIp := [];
      addNewIp := [];
      deleteIp := [];
      this.registrars := registrars;
      disableNotification := false;
      comment := "";
      this.contactGiven := contactGiven;
      this.contactFamily := contactFamily;
      this.contactEmail := contactEmail;
      this.contactPhone := contactPhone;
      title := "";
      status := false;
      this.uid := uid;
    }

    /** The entity object storage hands out for a stored row. */
    constructor FromRow(id: ChangeId, row: ChangeRow)
      ensures this.id == Some(id) && Row() == row
    {
      this.id := Some(id);
      organization := row.organization;
      addIp := row.addIp;
      addNewIp := row.addNewIp;
      deleteIp := row.deleteIp;
      registrars := row.registrars;
      disableNotification := row.disableNotification;
      comment := row.comment;
      contactGiven := row.contactGiven;
      contactFamily := row.contactFamily;
      contactEmail := row.contactEmail;
      contactPhone := row.contactPhone;
      title := row.title;
      status := row.status;
      uid := row.uid;
    }

    /** The field values save() persists. */
    function Row(): ChangeRow
      reads this
    {
      ChangeRow(organization, addIp, addNewIp, deleteIp, registrars, disableNotification, comment,
                contactGiven, contactFamily, contactEmail, contactPhone, title, status, uid)
    }

    function GetTitle(): string
      reads this
    {
      title
    }

    method SetTitle(t: string)
      modifies this`title
      ensures GetTitle() == t
    {
      title := t;
    }

    function IsCompleted(): bool
      reads this
    {
      status
    }

    method SetStatus(s: bool)
      modifies this`status
      ensures IsCompleted() == s
    {
      status := s;
    }

    /** save(): writes the entity; a new entity receives its id. */
    method Save(store: EntityStore) returns (result: SaveResult)
      requires store.Valid()
      modifies this`id, store`changes, store`nextChangeId, store`log
      ensures store.Valid()
      ensures id.Some? && Row() == old(Row())
      ensures result == (if old(id).None? then SavedNew else SavedUpdated)
      ensures old(id).Some? ==> id == old(id)
      ensures old(id).None? ==> id.value !in old(store.changes)
      ensures store.changes == old(store.changes)[id.value := Row()]
      ensures store.log == old(store.log) + [ChangeSaved(id.value)]
    {
      var saved;
      saved, result := store.WriteChange(id, Row());
      id := Some(saved);
    }

    /** delete(): removes a saved change from storage. */
    method Delete(store: EntityStore)
      requires id.Some?
      modifies store`changes, store`log
      ensures store.changes == old(store.changes) - {id.value}
      ensures store.log == old(store.log) + [ChangeDeleted(id.value)]
    {
      store.DeleteChange(id.value);
    }

    /** The mail step of sendRegistrarEmails: the BCC list, the body and the hand-off to the mail transport. */
    method Notify(store: EntityStore)
      requires LabelsLoad(Row(), store.ranges, store.organizations)
      modifies store`log
      ensures store.ranges == old(store.ranges)
      ensures store.log == old(store.log) + [Notification(old(Row()), old(store.ranges), store.registrars, store.organizations)]
    {
      var bcc := CollectBcc(registrars, store.registrars);
      var message := GetEmailBody(store);
      var to, list := contactEmail, Implode(",", bcc);
      store.SendMail(RegistrarEmail, to, list, message);
    }

    /** getEmailBody(): the notification text for the ranges as they are stored now. */
    method GetEmailBody(store: EntityStore) returns (body: string)
      requires LabelsLoad(Row(), store.ranges, store.organizations)
      ensures body == Render(Sections(Row(), store.ranges, store.organizations))
    {
      var ranges := store.ranges;
      var organizations := store.organizations;
      var c := Row();
      var header := HeaderText(c, organizations);
      var comments := CommentBlock(c.comment);
      SectionIdsAre(c, ranges.Keys);
      var confirm := ConfirmList(ranges.Keys, c.addIp, c.addNewIp);
      var confirmText := RangeListText(ranges, organizations, Confirm, confirm);
      assert confirmText == PartText(Confirm, Listed(c, ranges, organizations, Confirm));
      var added := Referenced(c.addNewIp, ranges.Keys);
      var addText := RangeListText(ranges, organizations, Add, added);
      assert addText == PartText(Add, Listed(c, ranges, organizations, Add));
      var deleted := Referenced(c.deleteIp, ranges.Keys);
      var deleteText := RangeListText(ranges, organizations, Remove, deleted);
      assert deleteText == PartText(Remove, Listed(c, ranges, organizations, Remove));
      body := header + comments + confirmText + addText + deleteText;
      RenderSections(c, ranges, organizations);
    }

    /**
     * sendRegistrarEmails(): unless notification is disabled or the change is
     * already completed, mails the contact (Bcc the registrars and the
     * operator); only when the transport reports success does it apply the
     * registrar delta to the ranges, saving each one after the mail.
     */
    method SendRegistrarEmails(store: EntityStore, mailResult: bool) returns (outcome: SendOutcome)
      requires store.Valid()
      requires !disableNotification && !status ==> LabelsLoad(Row(), store.ranges, store.organizations)
      modifies store`ranges, store`nextRangeId, store`log
      ensures store.Valid()
      ensures outcome == Outcome(Row(), mailResult)
      ensures outcome == Sent ==> store.ranges == Applied(old(store.ranges), Row(), None)
      ensures outcome != Sent ==> store.ranges == old(store.ranges)
      ensures store.log == SendLog(outcome, old(store.log), Row(), old(store.ranges), store.registrars, store.organizations)
    {
      if disableNotification {
        return NotificationDisabled;
      }
      if IsCompleted() {
        return AlreadyCompleted;
      }
      outcome := Deliver(store, mailResult);
    }

    /** The part of sendRegistrarEmails past its two guards: the mail, then the delta on success. */
    method Deliver(store: EntityStore, mailResult: bool) returns (outcome: SendOutcome)
      requires store.Valid() && LabelsLoad(Row(), store.ranges, store.organizations)
      modifies store`ranges, store`nextRangeId, store`log
      ensures store.Valid()
      ensures outcome == (if mailResult then Sent else SendFailed)
      ensures mailResult ==> store.ranges == Applied(old(store.ranges), old(Row()), None)
      ensures !mailResult ==> store.ranges == old(store.ranges)
      ensures store.log == SendLog(outcome, old(store.log), old(Row()), old(store.ranges), store.registrars, store.organizations)
    {
      var c := Row();
      ghost var m, log0 := store.ranges, store.log;
      Notify(store);
      ghost var log1 := store.log;
      outcome := DeltaOnSuccess(store, c, mailResult);
      SendLogSteps(outcome, log0, log1, store.log, c, m, store.registrars, store.organizations, mailResult);
    }

    /**
     * setIpRangeRegistrars(): applies the registrar delta to the ranges and
     * makes the current user the owner of every add_ip range.
     */
    method SetIpRangeRegistrars(store: EntityStore, currentUser: UserId)
      requires store.Valid()
      modifies store`ranges, store`nextRangeId, store`log
      ensures store.Valid()
      ensures store.ranges == Applied(old(store.ranges), Row(), Some(currentUser))
      ensures store.log == DeltaLog(old(store.log), old(store.ranges), Row())
    {
      ApplyDelta(store, Row(), Some(currentUser));
    }

  }

  /** The log past sendRegistrarEmails' guards: the mail, then the delta's saves when the transport reports success. */
  lemma SendLogSteps(o: SendOutcome, log0: seq<Event>, log1: seq<Event>, log2: seq<Event>, c: ChangeRow,
                     m: map<RangeId, RangeRow>, registrars: map<RegistrarId, Registrar>,
                     organizations: map<OrgId, string>, mailResult: bool)
    requires log1 == log0 + [Notification(c, m, registrars, organizations)]
    requires o == (if mailResult then Sent else SendFailed)
    requires log2 == (if mailResult then DeltaLog(log1, m, c) else log1)
    ensures log2 == SendLog(o, log0, c, m, registrars, organizations)
  {
  }

  /** The tail of sendRegistrarEmails: the delta and its saves when the transport reports success, else nothing. */
  method DeltaOnSuccess(store: EntityStore, c: ChangeRow, mailResult: bool) returns (outcome: SendOutcome)
    requires store.Valid()
    modifies store`ranges, store`nextRangeId, store`log
    ensures store.Valid()
    ensures outcome == (if mailResult then Sent else SendFailed)
    ensures store.ranges == (if mailResult then Applied(old(store.ranges), c, None) else old(store.ranges))
    ensures store.log == (if mailResult then DeltaLog(old(store.log), old(store.ranges), c) else old(store.log))
  {
    if mailResult {
      ApplyDelta(store, c, None);
      outcome := Sent;
    } else {
      outcome := SendFailed;
    }
  }

  /**
   * The two range loops sendRegistrarEmails and setIpRangeRegistrars share:
   * each loadable add_ip range gets the change's registrars appended (and
   * the owner, when one is given), each loadable delete_ip range loses them,
   * and every range is saved.
   */
  method ApplyDelta(store: EntityStore, c: ChangeRow, owner: Option<UserId>)
    requires store.Valid()
    modifies store`ranges, store`nextRangeId, store`log
    ensures store.Valid()
    ensures store.ranges == Applied(old(store.ranges), c, owner)
    ensures store.log == DeltaLog(old(store.log), old(store.ranges), c)
  {
    ghost var m0, log0 := store.ranges, store.log;
    var adds := Referenced(c.addIp, store.ranges.Keys);
    var deletes := Referenced(c.deleteIp, store.ranges.Keys);
    MergeRegistrars(store, adds, c.registrars, owner);
    assert store.ranges.Keys == m0.Keys;
    DiffRegistrars(store, deletes, c.registrars);
  }

  /** The add_ip loop: each listed range gets `regs` appended (and the owner, when given) and is saved. */
  method MergeRegistrars(store: EntityStore, ids: seq<RangeId>, regs: seq<RegistrarId>, owner: Option<UserId>)
    requires store.Valid()
    requires forall id :: id in ids ==> id in store.ranges
    modifies store`ranges, store`nextRangeId, store`log
    ensures store.Valid()
    ensures store.ranges == AddRegistrars(old(store.ranges), ids, regs, owner)
    ensures store.log == old(store.log) + Saves(ids)
  {
    for i := 0 to |ids|
      invariant store.Valid()
      invariant forall id :: id in ids ==> id in store.ranges
      invariant AddRegistrars(store.ranges, ids[i..], regs, owner) == AddRegistrars(old(store.ranges), ids, regs, owner)
      invariant store.log == old(store.log) + Saves(ids[..i])
    {
      ghost var m := store.ranges;
      MergeInto(store, ids[i], regs, owner);
      AddRegistrarsStep(m, ids, i, regs, owner);
      SavesSnoc(old(store.log), ids, i);
    }
    assert ids[..|ids|] == ids;
  }

  /** One add_ip iteration: load the range, append `regs`, set the owner when given, save. */
  method MergeInto(store: EntityStore, id: RangeId, regs: seq<RegistrarId>, owner: Option<UserId>)
    requires store.Valid() && id in store.ranges
    modifies store`ranges, store`nextRangeId, store`log
    ensures store.Valid()
    ensures store.ranges == old(store.ranges)[id := MergedRow(old(store.ranges)[id], regs, owner)]
    ensures store.log == old(store.log) + [RangeSaved(id)]
  {
    ghost var row := store.ranges[id];
    var range: IpRangeEntity.IpRange? := IpRangeEntity.Load(store, id);
    range.registrars := range.registrars + regs;
    if owner.Some? {
      range.uid := owner.value;
    }
    assert range.Row() == row.(registrars := row.registrars + regs, uid := owner.GetOr(row.uid));
    var _ := range.Save(store);
  }

  /**
   * One delete_ip iteration: load the range, once per registrar of the
   * change replace its registrars by their array_diff with `regs`, save.
   */
  method DiffFrom(store: EntityStore, id: RangeId, regs: seq<RegistrarId>)
    requires store.Valid() && id in store.ranges
    modifies store`ranges, store`nextRangeId, store`log
    ensures store.Valid()
    ensures store.ranges == old(store.ranges)[id := DiffedRow(old(store.ranges)[id], regs)]
    ensures store.log == old(store.log) + [RangeSaved(id)]
  {
    ghost var row := store.ranges[id];
    var range: IpRangeEntity.IpRange? := IpRangeEntity.Load(store, id);
    ghost var existing := range.registrars;
    for j := 0 to |regs|
      invariant range.registrars == if j == 0 then existing else Diff(existing, regs)
      modifies range`registrars
    {
      var current := range.registrars;
      range.registrars := Diff(current, regs);
      DiffIdempotent(existing, regs);
    }
    if regs == [] {
      DiffNothing(existing);
    }
    assert range.Row() == row.(registrars := Diff(row.registrars, regs));
    var _ := range.Save(store);
  }

  /**
   * The delete_ip loop: for each listed range, once per registrar of the
   * change, its registrars become their array_diff with `regs`; then it is saved.
   */
  method DiffRegistrars(store: EntityStore, ids: seq<RangeId>, regs: seq<RegistrarId>)
    requires store.Valid()
    requires forall id :: id in ids ==> id in store.ranges
    modifies store`ranges, store`nextRangeId, store`log
    ensures store.Valid()
    ensures store.ranges == RemoveRegistrars(old(store.ranges), ids, regs)
    ensures store.log == old(store.log) + Saves(ids)
  {
    for i := 0 to |ids|
      invariant store.Valid()
      invariant forall id :: id in ids ==> id in store.ranges
      invariant RemoveRegistrars(store.ranges, ids[i..], regs) == RemoveRegistrars(old(store.ranges), ids, regs)
      invariant store.log == old(store.log) + Saves(ids[..i])
    {
      ghost var m := store.ranges;
      DiffFrom(store, ids[i], regs);
      RemoveRegistrarsStep(m, ids, i, regs);
      SavesSnoc(old(store.log), ids, i);
    }
    assert ids[..|ids|] == ids;
  }

  method CommentBlock(comment: string) returns (text: string)
    ensures text == CommentText(comment)
  {
    text := "";
    if comment != "" {
      text := Rule + "\nAdditional Comments:\n" + Rule + "\n  " + Escape(comment);
    }
  }

  /** The Bcc list sendRegistrarEmails builds: loaded registrars' emails, then the operator. */
  method CollectBcc(ids: seq<RegistrarId>, registrars: map<RegistrarId, Registrar>) returns (bcc: seq<string>)
    ensures bcc == BccList(ids, registrars)
  {
    var loaded := Referenced(ids, registrars.Keys);
    var emails := [];
    for i := 0 to |loaded|
      invariant emails == Emails(loaded[..i], registrars)
    {
      assert loaded[..i + 1][..i] == loaded[..i];
      emails := emails + [registrars[loaded[i]].email];
    }
    assert loaded[..|loaded|] == loaded;
    bcc := emails + [OperatorAddress()];
  }

  method HeaderText(c: ChangeRow, organizations: map<OrgId, string>) returns (text: string)
    ensures text == RenderSection(HeaderOf(c, organizations))
  {
    text := Rule + "\nLibrary Name / Institution: " + Escape(OrgLabel(organizations, c.organization))
      + "\nContact Name: " + Escape(c.contactGiven + " " + c.contactFamily) + "\nContact Email: "
      + Escape(c.contactEmail) + "\nContact Phone: " + Escape(c.contactPhone) + "\n";
  }

  /**
   * The Confirm list getEmailBody builds: the loadable add_ip ranges that are
   * not among the loadable add_new_ip ones, in add_ip order.
   */
  method ConfirmList(stored: set<RangeId>, addIp: seq<RangeId>, addNewIp: seq<RangeId>) returns (confirm: seq<RangeId>)
    ensures confirm == Diff(Referenced(addIp, stored), addNewIp)
  {
    var added := Referenced(addIp, stored);
    var added_new := Referenced(addNewIp, stored);
    confirm := [];
    for i := 0 to |added|
      invariant confirm == Diff(added[..i], addNewIp)
    {
      DiffSnoc(added, i, addNewIp);
      assert added[i] in added_new <==> added[i] in addNewIp;
      if added[i] !in added_new {
        confirm := confirm + [added[i]];
      }
    }
    assert added[..|added|] == added;
  }

  /**
   * One range section of the body, as getEmailBody builds it: the heading,
   * then one line per range; nothing when no range is listed.
   */
  method RangeListText(ranges: map<RangeId, RangeRow>, organizations: map<OrgId, string>, k: Kind,
                       ids: seq<RangeId>) returns (text: string)
    requires forall id :: id in ids ==> id in ranges
    ensures text == PartText(k, Entries(ids, ranges, organizations))
  {
    text := "";
    if ids != [] {
      var lines := RangeLines(ranges, organizations, k, ids);
      text := Escape("\n" + Rule + "\n" + Heading(k) + "\n" + Rule + lines);
    }
  }

  /** The loop of a range section: one t()-built line per range, appended in order. */
  method RangeLines(ranges: map<RangeId, RangeRow>, organizations: map<OrgId, string>, k: Kind,
                    ids: seq<RangeId>) returns (lines: string)
    requires forall id :: id in ids ==> id in ranges
    ensures lines == EntryLines(k, Entries(ids, ranges, organizations))
  {
    lines := "";
    assert Entries(ids[..0], ranges, organizations) == [];
    for i := 0 to |ids|
      invariant lines == EntryLines(k, Entries(ids[..i], ranges, organizations))
    {
      var range := ranges[ids[i]];
      var line := "\n" + LinePrefix(k) + Escape(range.title) + " ("
        + Escape(OrgLabel(organizations, range.organization)) + ")";
      assert line == EntryLine(k, Entry(range.title, OrgLabel(organizations, range.organization)));
      EntriesSnoc(ids, i, ranges, organizations, k);
      lines := lines + line;
    }
    assert ids[..|ids|] == ids;
  }

  /** storage->load(id): a fresh entity object for a stored change, or null. */
  method Load(store: EntityStore, id: ChangeId) returns (e: IpChange?)
    ensures (e == null) == (id !in store.changes)
    ensures e != null ==> fresh(e) && e.id == Some(id) && e.Row() == store.changes[id]
  {
    if id in store.changes {
      e := new IpChange.FromRow(id, store.changes[id]);
    } else {
      e := null;
    }
  }
}
