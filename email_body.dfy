/**
 * The body of the notification an IP change sends (and previews): a
 * header, the comment when there is one, then the Confirm, Add and Remove
 * sections, each only when it lists at least one range. The body is one
 * t() call whose placeholders are escaped as t() escapes them: the header
 * fields once, the comment once (its inner t() call is markup the outer one
 * keeps), and each range section as a whole, its lines having been escaped
 * once already when they were built.
 */
module EmailBody {
  import opened PhpArrays
  import opened Storage
  import opened Html

  const Rule := "-------------------------------------"

  datatype Kind = Confirm | Add | Remove

  /** A listed range: its title and its organization's label. */
  datatype Entry = Entry(title: string, organization: string)

  datatype Section =
    | Header(organization: string, contactName: string, contactEmail: string, contactPhone: string)
    | Comment(text: string)
    | RangeList(kind: Kind, entries: seq<Entry>)

  function Heading(k: Kind): string {
    match k
    case Confirm => "Confirm IP Ranges:"
    case Add => "Add IP Ranges:"
    case Remove => "Remove IP Ranges:"
  }

  function LinePrefix(k: Kind): string {
    match k
    case Confirm => "  Confirm range: "
    case Add => "  Add range: "
    case Remove => "  Remove range: "
  }

  /** One range line: its own t() call escapes the title and the organization label. */
  function EntryLine(k: Kind, e: Entry): string {
    "\n" + LinePrefix(k) + Escape(e.title) + " (" + Escape(e.organization) + ")"
  }

  /** The lines of a range section, one per entry, in order. */
  function EntryLines(k: Kind, es: seq<Entry>): string {
    if es == [] then "" else EntryLines(k, es[..|es| - 1]) + EntryLine(k, es[|es| - 1])
  }

  function SectionHead(k: Kind): string {
    "\n" + Rule + "\n" + Heading(k) + "\n" + Rule
  }

  function RenderSection(s: Section): string {
    match s
    case Header(org, name, email, phone) =>
      Rule + "\nLibrary Name / Institution: " + Escape(org) + "\nContact Name: " + Escape(name)
        + "\nContact Email: " + Escape(email) + "\nContact Phone: " + Escape(phone) + "\n"
    case Comment(t) => Rule + "\nAdditional Comments:\n" + Rule + "\n  " + Escape(t)
    case RangeList(k, es) => Escape(SectionHead(k) + EntryLines(k, es))
  }

  /** The body is the sections' texts, one after another. */
  function Render(ss: seq<Section>): string {
    if ss == [] then "" else RenderSection(ss[0]) + Render(ss[1..])
  }

  lemma {:induction false} RenderAppend(a: seq<Section>, b: seq<Section>)
    ensures Render(a + b) == Render(a) + Render(b)
  {
    if a == [] {
      assert a + b == b;
    } else {
      assert (a + b)[1..] == a[1..] + b;
      RenderAppend(a[1..], b);
    }
  }

  /** Entries for stored ranges: each range's title and organization label, in order. */
  function Entries(ids: seq<RangeId>, ranges: map<RangeId, RangeRow>, organizations: map<OrgId, string>)
    : (es: seq<Entry>)
    requires forall id :: id in ids ==> id in ranges
    ensures |es| == |ids|
  {
    if ids == [] then
      []
    else
      var last := ranges[ids[|ids| - 1]];
      Entries(ids[..|ids| - 1], ranges, organizations) + [Entry(last.title, OrgLabel(organizations, last.organization))]
  }

  /** Entry i is range i's title and organization label. */
  lemma {:induction false} EntriesAt(ids: seq<RangeId>, ranges: map<RangeId, RangeRow>, organizations: map<OrgId, string>)
    requires forall id :: id in ids ==> id in ranges
    ensures forall i :: 0 <= i < |ids| ==>
      Entries(ids, ranges, organizations)[i] == Entry(ranges[ids[i]].title, OrgLabel(organizations, ranges[ids[i]].organization))
  {
    if ids != [] {
      var init := ids[..|ids| - 1];
      EntriesAt(init, ranges, organizations);
      assert forall i :: 0 <= i < |init| ==> init[i] == ids[i];
    }
  }

  /**
   * The ranges a section lists: Confirm is the add_ip ranges that are not
   * new in this change, Add the add_new_ip ranges, Remove the delete_ip
   * ranges; only ranges that still load are listed.
   */
  function SectionIds(c: ChangeRow, stored: set<RangeId>, k: Kind): (ids: seq<RangeId>)
    ensures forall id :: id in ids ==> id in stored
  {
    match k
    case Confirm => Diff(Referenced(c.addIp, stored), c.addNewIp)
    case Add => Referenced(c.addNewIp, stored)
    case Remove => Referenced(c.deleteIp, stored)
  }

  /** The id list of each section, spelled out. */
  lemma SectionIdsAre(c: ChangeRow, stored: set<RangeId>)
    ensures SectionIds(c, stored, Confirm) == Diff(Referenced(c.addIp, stored), c.addNewIp)
    ensures SectionIds(c, stored, Add) == Referenced(c.addNewIp, stored)
    ensures SectionIds(c, stored, Remove) == Referenced(c.deleteIp, stored)
  {
  }

  /** Confirm lists exactly the loadable add_ip ranges that are not new in the change. */
  lemma ConfirmIds(c: ChangeRow, stored: set<RangeId>, id: RangeId)
    ensures id in SectionIds(c, stored, Confirm) <==> id in c.addIp && id in stored && id !in c.addNewIp
  {
  }

  /** Confirm keeps add_ip order: the ranges referenced first are listed first. */
  lemma ConfirmAppend(c: ChangeRow, stored: set<RangeId>, a: seq<RangeId>, b: seq<RangeId>)
    requires c.addIp == a + b
    ensures SectionIds(c, stored, Confirm)
         == Diff(Referenced(a, stored), c.addNewIp) + Diff(Referenced(b, stored), c.addNewIp)
  {
    ReferencedAppend(a, b, stored);
    DiffAppend(Referenced(a, stored), Referenced(b, stored), c.addNewIp);
  }

  /** One add_ip reference is confirmed exactly when it loads and is not new in the change. */
  lemma ConfirmOne(id: RangeId, stored: set<RangeId>, addNewIp: seq<RangeId>)
    ensures Diff(Referenced([id], stored), addNewIp) == if id in stored && id !in addNewIp then [id] else []
  {
    ReferencedOne(id, stored);
    if id in stored {
      assert [id][1..] == [];
    }
  }

  /** When every add_ip range loads and none is new, Confirm is add_ip itself, in its order. */
  lemma ConfirmAllKept(c: ChangeRow, stored: set<RangeId>)
    requires forall id :: id in c.addIp ==> id in stored && id !in c.addNewIp
    ensures SectionIds(c, stored, Confirm) == c.addIp
  {
    ReferencedAllStored(c.addIp, stored);
    DiffDisjoint(c.addIp, c.addNewIp);
  }

  function KindRank(k: Kind): nat {
    match k
    case Confirm => 2
    case Add => 3
    case Remove => 4
  }

  /** The position class of a section in the body. */
  function Rank(s: Section): nat {
    match s
    case Header(_, _, _, _) => 0
    case Comment(_) => 1
    case RangeList(k, _) => KindRank(k)
  }

  /** A range section is present exactly when it lists at least one range. */
  function RangePart(k: Kind, es: seq<Entry>): (ss: seq<Section>)
    ensures |ss| <= 1
    ensures ss != [] <==> es != []
    ensures forall s :: s in ss ==> s == RangeList(k, es) && Rank(s) == KindRank(k)
  {
    if es == [] then [] else [RangeList(k, es)]
  }

  /** The comment section is present exactly when the comment is non-empty. */
  function CommentPart(text: string): (ss: seq<Section>)
    ensures |ss| <= 1
    ensures ss != [] <==> text != ""
    ensures forall s :: s in ss ==> s == Comment(text) && Rank(s) == 1
  {
    if text != "" then [Comment(text)] else []
  }

  /** The layout of a body: header, comment, then the Confirm, Add and Remove lists. */
  function Layout(header: Section, comment: string, confirm: seq<Entry>, add: seq<Entry>, remove: seq<Entry>)
    : seq<Section>
  {
    [header] + CommentPart(comment) + RangePart(Confirm, confirm) + RangePart(Add, add) + RangePart(Remove, remove)
  }

  /** The section header of a change: its organization's label and its contact. */
  function HeaderOf(c: ChangeRow, organizations: map<OrgId, string>): Section {
    Header(OrgLabel(organizations, c.organization), c.contactGiven + " " + c.contactFamily,
           c.contactEmail, c.contactPhone)
  }

  /** The entries a section of a change lists, one per listed range. */
  function Listed(c: ChangeRow, ranges: map<RangeId, RangeRow>, organizations: map<OrgId, string>, k: Kind)
    : seq<Entry>
  {
    Entries(SectionIds(c, ranges.Keys, k), ranges, organizations)
  }

  /** Each section lists its ranges' titles and organization labels, position by position. */
  lemma ListedEntries(c: ChangeRow, ranges: map<RangeId, RangeRow>, organizations: map<OrgId, string>, k: Kind)
    ensures var ids := SectionIds(c, ranges.Keys, k);
      var es := Listed(c, ranges, organizations, k);
      && |es| == |ids|
      && forall i :: 0 <= i < |ids| ==>
        es[i] == Entry(ranges[ids[i]].title, OrgLabel(organizations, ranges[ids[i]].organization))
  {
    var ids := SectionIds(c, ranges.Keys, k);
    var es := Entries(ids, ranges, organizations);
    EntriesAt(ids, ranges, organizations);
    assert forall i :: 0 <= i < |ids| ==>
      es[i] == Entry(ranges[ids[i]].title, OrgLabel(organizations, ranges[ids[i]].organization));
  }

  /** The sections of a change's notification. */
  function Sections(c: ChangeRow, ranges: map<RangeId, RangeRow>, organizations: map<OrgId, string>)
    : seq<Section>
  {
    Layout(HeaderOf(c, organizations), c.comment, Listed(c, ranges, organizations, Confirm),
           Listed(c, ranges, organizations, Add), Listed(c, ranges, organizations, Remove))
  }

  predicate Ascending(ss: seq<Section>) {
    forall i, j :: 0 <= i < j < |ss| ==> Rank(ss[i]) < Rank(ss[j])
  }

  predicate RanksBelow(ss: seq<Section>, n: nat) {
    forall i :: 0 <= i < |ss| ==> Rank(ss[i]) < n
  }

  /** Appending one section of at least every rank so far keeps the sequence ascending. */
  lemma AscendingAppend(a: seq<Section>, b: seq<Section>, n: nat)
    requires Ascending(a) && RanksBelow(a, n)
    requires |b| <= 1 && forall s :: s in b ==> Rank(s) == n
    ensures Ascending(a + b) && RanksBelow(a + b, n + 1)
  {
    if b != [] {
      var ab := a + b;
      forall i, j | 0 <= i < j < |ab|
        ensures Rank(ab[i]) < Rank(ab[j])
      {
        if j < |a| {
          assert ab[i] == a[i] && ab[j] == a[j];
        } else {
          assert ab[i] == a[i] && ab[j] == b[0];
        }
      }
      assert forall i :: 0 <= i < |ab| ==> ab[i] == if i < |a| then a[i] else b[0];
    } else {
      assert a + b == a;
    }
  }

  /** The header comes first, and comment, Confirm, Add and Remove each appear at most once, in that order. */
  lemma LayoutOrder(header: Section, comment: string, confirm: seq<Entry>, add: seq<Entry>, remove: seq<Entry>)
    requires header.Header?
    ensures var ss := Layout(header, comment, confirm, add, remove);
      ss[0] == header && Ascending(ss)
  {
    var h := [header];
    var cm := CommentPart(comment);
    var cf := RangePart(Confirm, confirm);
    var ad := RangePart(Add, add);
    var rm := RangePart(Remove, remove);
    assert Ascending(h) && RanksBelow(h, 1);
    AscendingAppend(h, cm, 1);
    AscendingAppend(h + cm, cf, 2);
    AscendingAppend(h + cm + cf, ad, 3);
    AscendingAppend(h + cm + cf + ad, rm, 4);
  }

  /** The comment section appears exactly when the comment is non-empty, and holds it. */
  lemma LayoutComment(header: Section, comment: string, confirm: seq<Entry>, add: seq<Entry>, remove: seq<Entry>)
    requires header.Header?
    ensures var ss := Layout(header, comment, confirm, add, remove);
      && ((exists s :: s in ss && s.Comment?) <==> comment != "")
      && (forall s :: s in ss && s.Comment? ==> s.text == comment)
  {
    var ss := Layout(header, comment, confirm, add, remove);
    var cm := CommentPart(comment);
    if comment != "" {
      assert cm[0] in cm;
      assert cm[0] in ss && cm[0].Comment?;
    }
  }

  /** Each range section appears exactly when its list is non-empty, and holds that list. */
  lemma LayoutRanges(header: Section, comment: string, confirm: seq<Entry>, add: seq<Entry>, remove: seq<Entry>,
                     k: Kind)
    requires header.Header?
    ensures var ss := Layout(header, comment, confirm, add, remove);
      var es := match k case Confirm => confirm case Add => add case Remove => remove;
      && ((exists s :: s in ss && s.RangeList? && s.kind == k) <==> es != [])
      && (forall s :: s in ss && s.RangeList? && s.kind == k ==> s.entries == es)
  {
    var ss := Layout(header, comment, confirm, add, remove);
    var es := match k case Confirm => confirm case Add => add case Remove => remove;
    var mine := RangePart(k, es);
    if es != [] {
      assert mine[0] in mine;
      assert mine[0] in ss && mine[0].RangeList? && mine[0].kind == k;
    }
  }

  /** The text of one range part: its heading and its lines, or nothing when it lists no range. */
  function PartText(k: Kind, es: seq<Entry>): string {
    if es == [] then "" else Escape(SectionHead(k) + EntryLines(k, es))
  }

  /** The text of the comment part. */
  function CommentText(text: string): string {
    if text == "" then "" else RenderSection(Comment(text))
  }

  /** A range part renders as its range text. */
  lemma RenderRangePart(k: Kind, es: seq<Entry>)
    ensures Render(RangePart(k, es)) == PartText(k, es)
  {
    if es != [] {
      assert RangePart(k, es)[1..] == [];
    }
  }

  /** The comment part renders as the comment text. */
  lemma RenderCommentPart(comment: string)
    ensures Render(CommentPart(comment)) == CommentText(comment)
  {
    if comment != "" {
      assert CommentPart(comment)[1..] == [];
    }
  }

  /** The rendered body is the header, the comment text and the three range texts, concatenated in order. */
  lemma RenderLayout(header: Section, comment: string, confirm: seq<Entry>, add: seq<Entry>, remove: seq<Entry>)
    ensures Render(Layout(header, comment, confirm, add, remove))
         == RenderSection(header) + CommentText(comment) + PartText(Confirm, confirm) + PartText(Add, add)
            + PartText(Remove, remove)
  {
    var h, cm := [header], CommentPart(comment);
    var cf, ad, rm := RangePart(Confirm, confirm), RangePart(Add, add), RangePart(Remove, remove);
    assert Render(h) == RenderSection(header) by {
      assert h[1..] == [];
    }
    RenderCommentPart(comment);
    RenderRangePart(Confirm, confirm);
    RenderRangePart(Add, add);
    RenderRangePart(Remove, remove);
    RenderAppend(h, cm);
    RenderAppend(h + cm, cf);
    RenderAppend(h + cm + cf, ad);
    RenderAppend(h + cm + cf + ad, rm);
  }

  /**
   * A change's body, section by section: the header, the comment text, then
   * the Confirm, Add and Remove texts of the listed ranges that load.
   */
  lemma RenderSections(c: ChangeRow, ranges: map<RangeId, RangeRow>, organizations: map<OrgId, string>)
    ensures Render(Sections(c, ranges, organizations))
         == RenderSection(HeaderOf(c, organizations)) + CommentText(c.comment)
            + PartText(Confirm, Listed(c, ranges, organizations, Confirm))
            + PartText(Add, Listed(c, ranges, organizations, Add))
            + PartText(Remove, Listed(c, ranges, organizations, Remove))
  {
    RenderLayout(HeaderOf(c, organizations), c.comment, Listed(c, ranges, organizations, Confirm),
                 Listed(c, ranges, organizations, Add), Listed(c, ranges, organizations, Remove));
  }

  /** Entries and their lines grow one range at a time, as the body-building loop appends them. */
  lemma EntriesSnoc(ids: seq<RangeId>, i: nat, ranges: map<RangeId, RangeRow>, organizations: map<OrgId, string>,
                    k: Kind)
    requires i < |ids|
    requires forall id :: id in ids ==> id in ranges
    ensures var r := ranges[ids[i]];
      EntryLines(k, Entries(ids[..i + 1], ranges, organizations))
        == EntryLines(k, Entries(ids[..i], ranges, organizations))
           + EntryLine(k, Entry(r.title, OrgLabel(organizations, r.organization)))
  {
    var a := ids[..i + 1];
    assert a[..|a| - 1] == ids[..i];
    var es := Entries(a, ranges, organizations);
    assert es[..|es| - 1] == Entries(ids[..i], ranges, organizations);
  }

  /**
   * Decoded once, as a browser shows the preview, a range section is its
   * heading and lines with every title and organization label still
   * escaped: `AT&T` shows as `AT&amp;T` (Html.EscapedTwiceExample).
   */
  lemma RangeListShownEscaped(k: Kind, es: seq<Entry>)
    ensures Unescape(RenderSection(RangeList(k, es))) == SectionHead(k) + EntryLines(k, es)
    ensures es != [] ==> EntryLine(k, es[0]) == "\n" + LinePrefix(k) + Escape(es[0].title) + " (" + Escape(es[0].organization) + ")"
  {
    UnescapeEscape(SectionHead(k) + EntryLines(k, es));
  }

  /** Every stored range among `ids` has an organization that loads. */
  predicate RangeLabelsLoad(ids: seq<RangeId>, ranges: map<RangeId, RangeRow>, organizations: map<OrgId, string>)
    decreases |ids|
  {
    ids == []
    || ((ids[0] in ranges ==> ranges[ids[0]].organization in organizations)
        && RangeLabelsLoad(ids[1..], ranges, organizations))
  }

  /** RangeLabelsLoad holds exactly when each listed stored range's organization loads. */
  lemma {:induction false} RangeLabelsLoadMeans(ids: seq<RangeId>, ranges: map<RangeId, RangeRow>,
                                                organizations: map<OrgId, string>)
    ensures RangeLabelsLoad(ids, ranges, organizations)
        <==> forall id :: id in ids && id in ranges ==> ranges[id].organization in organizations
  {
    if ids != [] {
      RangeLabelsLoadMeans(ids[1..], ranges, organizations);
      assert forall id :: id in ids <==> id == ids[0] || id in ids[1..];
    }
  }

  /**
   * Every organization getEmailBody reads a label from loads: the change's,
   * and that of each stored range the change lists. The source fails with a
   * PHP error (label() on NULL) otherwise.
   */
  predicate LabelsLoad(c: ChangeRow, ranges: map<RangeId, RangeRow>, organizations: map<OrgId, string>) {
    && c.organization in organizations
    && RangeLabelsLoad(c.addIp, ranges, organizations)
    && RangeLabelsLoad(c.addNewIp, ranges, organizations)
    && RangeLabelsLoad(c.deleteIp, ranges, organizations)
  }

  /** When the labels load, the header and every listed entry carry the organization's real label. */
  lemma LabelsLoaded(c: ChangeRow, ranges: map<RangeId, RangeRow>, organizations: map<OrgId, string>, k: Kind)
    requires LabelsLoad(c, ranges, organizations)
    ensures HeaderOf(c, organizations).organization == organizations[c.organization]
    ensures var ids := SectionIds(c, ranges.Keys, k);
      forall i :: 0 <= i < |ids| ==>
        ranges[ids[i]].organization in organizations
        && Listed(c, ranges, organizations, k)[i].organization == organizations[ranges[ids[i]].organization]
  {
    var ids := SectionIds(c, ranges.Keys, k);
    ListedEntries(c, ranges, organizations, k);
    RangeLabelsLoadMeans(c.addIp, ranges, organizations);
    RangeLabelsLoadMeans(c.addNewIp, ranges, organizations);
    RangeLabelsLoadMeans(c.deleteIp, ranges, organizations);
    forall i | 0 <= i < |ids|
      ensures ranges[ids[i]].organization in organizations
    {
      assert ids[i] in ids;
      match k
      case Confirm => assert ids[i] in Referenced(c.addIp, ranges.Keys);
      case Add =>
      case Remove =>
    }
  }
}
