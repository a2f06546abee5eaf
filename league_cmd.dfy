/**
 * League tables: the commands a game script uses to create a league table,
 * add elements to it, update an element's data or score, and remove an
 * element. Every command first checks that the deity is issuing it, then
 * its own preconditions, and changes the pools only when the execute flag
 * is set; all failures are the one generic `CMD_ERROR`.
 */
module LeagueCmd {
  import opened Pool

  newtype LeagueTableID = x: int | 0 <= x
  newtype LeagueTableElementID = x: int | 0 <= x
  newtype CompanyID = x: int | 0 <= x

  /** The owner that stands for game scripts. */
  const OwnerDeity: CompanyID := 0x12
  /** `CompanyID::Invalid()`: no company. */
  const InvalidCompany: CompanyID := 0xFF

  newtype int64 = x: int | -0x8000_0000_0000_0000 <= x < 0x8000_0000_0000_0000

  /** A string in its encoded form; only whether it is empty matters here. */
  datatype EncodedString = EncodedString(data: seq<char>) {
    predicate IsEmpty() {
      |data| == 0
    }
  }

  /**
   * The kind of object a link refers to. `LinkUnrecognised` stands for every
   * other value the byte-sized tag can carry.
   */
  datatype LinkType =
    | LinkNone
    | LinkTile
    | LinkIndustry
    | LinkTown
    | LinkCompany
    | LinkStoryPage
    | LinkUnrecognised

  datatype Link = Link(kind: LinkType, target: nat)

  /**
   * The state outside the league pools that the commands consult: the
   * valid tiles of the map and the live ids of the industry, town, company
   * and story page pools.
   */
  datatype World = World(
    tiles: set<nat>,
    industries: set<nat>,
    towns: set<nat>,
    companies: set<nat>,
    storyPages: set<nat>)

  /**
   * The index a kind of link resolves its target in: a pool's live ids,
   * or the map's tiles. The kinds without one resolve nothing.
   */
  function TargetIndex(w: World, kind: LinkType): Option<set<nat>> {
    match kind
    case LinkTile => Some(w.tiles)
    case LinkIndustry => Some(w.industries)
    case LinkTown => Some(w.towns)
    case LinkCompany => Some(w.companies)
    case LinkStoryPage => Some(w.storyPages)
    case _ => None
  }

  /**
   * `IsValidLink`: a link without a kind must have target 0; a link of a
   * known kind must name a live target of that kind; any other link is
   * invalid.
   */
  function IsValidLink(w: World, link: Link): (r: bool)
    ensures link.kind == LinkNone ==> (r <==> link.target == 0)
    ensures link.kind != LinkNone ==>
      (r <==> TargetIndex(w, link.kind).Some? && link.target in TargetIndex(w, link.kind).value)
  {
    match link.kind
    case LinkNone => link.target == 0
    case LinkTile => link.target in w.tiles
    case LinkIndustry => link.target in w.industries
    case LinkTown => link.target in w.towns
    case LinkCompany => link.target in w.companies
    case LinkStoryPage => link.target in w.storyPages
    case LinkUnrecognised => false
  }

  /** A link whose kind is not recognised is never valid, whatever its target. */
  lemma UnrecognisedLinkInvalid(w: World, target: nat)
    ensures !IsValidLink(w, Link(LinkUnrecognised, target))
  {
  }

  /** The world after the object `target` of the given kind is destroyed. */
  function Destroy(w: World, kind: LinkType, target: nat): (w': World)
    ensures forall k :: k != kind ==> TargetIndex(w', k) == TargetIndex(w, k)
    ensures TargetIndex(w, kind).Some? ==> TargetIndex(w', kind) == Some(TargetIndex(w, kind).value - {target})
  {
    match kind
    case LinkTile => w.(tiles := w.tiles - {target})
    case LinkIndustry => w.(industries := w.industries - {target})
    case LinkTown => w.(towns := w.towns - {target})
    case LinkCompany => w.(companies := w.companies - {target})
    case LinkStoryPage => w.(storyPages := w.storyPages - {target})
    case _ => w
  }

  /**
   * Validity is recomputed, not remembered: once a link's target is
   * destroyed the link is invalid, while every link to another object
   * keeps its validity.
   */
  lemma {:induction false} LinkToDestroyedTarget(w: World, link: Link, other: Link)
    requires link.kind != LinkNone
    requires other.kind != link.kind || other.target != link.target
    ensures !IsValidLink(Destroy(w, link.kind, link.target), link)
    ensures IsValidLink(Destroy(w, link.kind, link.target), other) == IsValidLink(w, other)
  {
    var w' := Destroy(w, link.kind, link.target);
    if other.kind != link.kind {
      assert TargetIndex(w', other.kind) == TargetIndex(w, other.kind);
    }
  }

  /**
   * The `company` argument is either no company or a live one: the same
   * company ids that a company link may name.
   */
  predicate IsCompanyOrInvalid(w: World, company: CompanyID)
    ensures company == InvalidCompany ==> IsCompanyOrInvalid(w, company)
    ensures company != InvalidCompany ==>
      (IsCompanyOrInvalid(w, company) <==> IsValidLink(w, Link(LinkCompany, company as nat)))
  {
    company == InvalidCompany || company as int in w.companies
  }

  datatype LeagueTable = LeagueTable(title: EncodedString, header: EncodedString, footer: EncodedString)

  datatype LeagueTableElement = LeagueTableElement(
    table: LeagueTableID,
    rating: int64,
    company: CompanyID,
    text: EncodedString,
    score: EncodedString,
    link: Link)

  /** `CommandCost()` for success, `CMD_ERROR` for every failure. */
  datatype CommandCost = Succeeded | CmdError

  datatype DoCommandFlags = DoCommandFlags(execute: bool)

  datatype WindowClass = CompanyLeagueWindow

  /** One `InvalidateWindowData(window, table)` call. */
  datatype Invalidation = Invalidation(window: WindowClass, table: LeagueTableID)

  /** The league pools and the invalidations sent to the windows showing them. */
  class LeagueGame {
    var tables: Pool<LeagueTable>
    var elements: Pool<LeagueTableElement>
    var invalidations: seq<Invalidation>

    ghost predicate Valid()
      reads this
    {
      tables.Valid() && elements.Valid()
    }

    constructor (tableIds: IdSpace, elementIds: IdSpace)
      requires tableIds.Valid() && elementIds.Valid()
      ensures Valid()
      ensures tables == Pool(tableIds, map[]) && elements == Pool(elementIds, map[])
      ensures invalidations == []
    {
      tables := Pool(tableIds, map[]);
      elements := Pool(elementIds, map[]);
      invalidations := [];
    }

    /** `LeagueTableID::Invalid()`. */
    function InvalidTable(): LeagueTableID
      reads this
    {
      tables.ids.invalid as LeagueTableID
    }

    /** `LeagueTableElementID::Invalid()`. */
    function InvalidElement(): LeagueTableElementID
      reads this
    {
      elements.ids.invalid as LeagueTableElementID
    }

    /** `CmdCreateLeagueTable`. */
    method CreateLeagueTable(flags: DoCommandFlags, current: CompanyID, title: EncodedString, header: EncodedString, footer: EncodedString)
      returns (cost: CommandCost, id: LeagueTableID)
      requires Valid()
      modifies this
      ensures Valid()
      ensures cost.Succeeded? <==> current == OwnerDeity && old(tables.CanAllocateItem()) && !title.IsEmpty()
      ensures tables.ids == old(tables.ids) && elements == old(elements) && invalidations == old(invalidations)
      ensures !(cost.Succeeded? && flags.execute) ==> tables == old(tables) && id == InvalidTable()
      ensures cost.Succeeded? && flags.execute ==>
        && id != InvalidTable()
        && id as int !in old(tables.items)
        && tables.items == old(tables.items)[id as int := LeagueTable(title, header, footer)]
        && tables.Size() == old(tables.Size()) + 1
    {
      if current != OwnerDeity {
        return CmdError, InvalidTable();
      }
      if !tables.CanAllocateItem() {
        return CmdError, InvalidTable();
      }
      if title.IsEmpty() {
        return CmdError, InvalidTable();
      }
      if flags.execute {
        var i: nat :| i < tables.ids.end && i !in tables.items;
        tables := Pool(tables.ids, tables.items[i := LeagueTable(title, header, footer)]);
        return Succeeded, i as LeagueTableID;
      }
      return Succeeded, InvalidTable();
    }

    /** `CmdCreateLeagueTableElement`; `table` is stored as given, without a check that it exists. */
    method CreateLeagueTableElement(
      flags: DoCommandFlags, current: CompanyID, world: World,
      table: LeagueTableID, rating: int64, company: CompanyID,
      text: EncodedString, score: EncodedString, linkType: LinkType, linkTarget: nat)
      returns (cost: CommandCost, id: LeagueTableElementID)
      requires Valid()
      modifies this
      ensures Valid()
      ensures cost.Succeeded? <==>
        && current == OwnerDeity
        && old(elements.CanAllocateItem())
        && IsValidLink(world, Link(linkType, linkTarget))
        && IsCompanyOrInvalid(world, company)
      ensures tables == old(tables) && elements.ids == old(elements.ids)
      ensures !(cost.Succeeded? && flags.execute) ==>
        elements == old(elements) && invalidations == old(invalidations) && id == InvalidElement()
      ensures cost.Succeeded? && flags.execute ==>
        && id != InvalidElement()
        && id as int !in old(elements.items)
        && elements.items == old(elements.items)[id as int :=
             LeagueTableElement(table, rating, company, text, score, Link(linkType, linkTarget))]
        && elements.Size() == old(elements.Size()) + 1
        && invalidations == old(invalidations) + [Invalidation(CompanyLeagueWindow, table)]
    {
      if current != OwnerDeity {
        return CmdError, InvalidElement();
      }
      if !elements.CanAllocateItem() {
        return CmdError, InvalidElement();
      }
      var link := Link(linkType, linkTarget);
      if !IsValidLink(world, link) {
        return CmdError, InvalidElement();
      }
      if company != InvalidCompany && !(company as int in world.companies) {
        return CmdError, InvalidElement();
      }
      if flags.execute {
        var i: nat :| i < elements.ids.end && i !in elements.items;
        elements := Pool(elements.ids, elements.items[i := LeagueTableElement(table, rating, company, text, score, link)]);
        invalidations := invalidations + [Invalidation(CompanyLeagueWindow, table)];
        return Succeeded, i as LeagueTableElementID;
      }
      return Succeeded, InvalidElement();
    }

    /** `CmdUpdateLeagueTableElementData`: replaces an element's company, text and link. */
    method UpdateLeagueTableElementData(
      flags: DoCommandFlags, current: CompanyID, world: World,
      element: LeagueTableElementID, company: CompanyID, text: EncodedString,
      linkType: LinkType, linkTarget: nat)
      returns (cost: CommandCost)
      requires Valid()
      modifies this
      ensures Valid()
      ensures cost.Succeeded? <==>
        && current == OwnerDeity
        && old(elements.IsValidID(element as int))
        && IsCompanyOrInvalid(world, company)
        && IsValidLink(world, Link(linkType, linkTarget))
      ensures tables == old(tables) && elements.ids == old(elements.ids)
      ensures !(cost.Succeeded? && flags.execute) ==>
        elements == old(elements) && invalidations == old(invalidations)
      ensures cost.Succeeded? && flags.execute ==>
        var e := element as int;
        var was := old(elements.items)[e];
        && elements.items == old(elements.items)[e := was.(company := company, text := text, link := Link(linkType, linkTarget))]
        && elements.items[e].table == was.table
        && elements.items[e].rating == was.rating
        && elements.items[e].score == was.score
        && invalidations == old(invalidations) + [Invalidation(CompanyLeagueWindow, was.table)]
    {
      if current != OwnerDeity {
        return CmdError;
      }
      var lte := elements.GetIfValid(element as int);
      if lte.None? {
        return CmdError;
      }
      if company != InvalidCompany && !(company as int in world.companies) {
        return CmdError;
      }
      var link := Link(linkType, linkTarget);
      if !IsValidLink(world, link) {
        return CmdError;
      }
      if flags.execute {
        var updated := lte.value.(company := company, text := text, link := link);
        elements := Pool(elements.ids, elements.items[element as int := updated]);
        invalidations := invalidations + [Invalidation(CompanyLeagueWindow, updated.table)];
      }
      return Succeeded;
    }

    /** `CmdUpdateLeagueTableElementScore`: replaces an element's rating and score. */
    method UpdateLeagueTableElementScore(
      flags: DoCommandFlags, current: CompanyID,
      element: LeagueTableElementID, rating: int64, score: EncodedString)
      returns (cost: CommandCost)
      requires Valid()
      modifies this
      ensures Valid()
      ensures cost.Succeeded? <==> current == OwnerDeity && old(elements.IsValidID(element as int))
      ensures tables == old(tables) && elements.ids == old(elements.ids)
      ensures !(cost.Succeeded? && flags.execute) ==>
        elements == old(elements) && invalidations == old(invalidations)
      ensures cost.Succeeded? && flags.execute ==>
        var e := element as int;
        var was := old(elements.items)[e];
        && elements.items == old(elements.items)[e := was.(rating := rating, score := score)]
        && elements.items[e].table == was.table
        && elements.items[e].company == was.company
        && elements.items[e].text == was.text
        && elements.items[e].link == was.link
        && invalidations == old(invalidations) + [Invalidation(CompanyLeagueWindow, was.table)]
    {
      if current != OwnerDeity {
        return CmdError;
      }
      var lte := elements.GetIfValid(element as int);
      if lte.None? {
        return CmdError;
      }
      if flags.execute {
        var updated := lte.value.(rating := rating, score := score);
        elements := Pool(elements.ids, elements.items[element as int := updated]);
        invalidations := invalidations + [Invalidation(CompanyLeagueWindow, updated.table)];
      }
      return Succeeded;
    }

    /** `CmdRemoveLeagueTableElement`: frees the element's slot. */
    method RemoveLeagueTableElement(flags: DoCommandFlags, current: CompanyID, element: LeagueTableElementID)
      returns (cost: CommandCost)
      requires Valid()
      modifies this
      ensures Valid()
      ensures cost.Succeeded? <==> current == OwnerDeity && old(elements.IsValidID(element as int))
      ensures tables == old(tables) && elements.ids == old(elements.ids)
      ensures !(cost.Succeeded? && flags.execute) ==>
        elements == old(elements) && invalidations == old(invalidations)
      ensures cost.Succeeded? && flags.execute ==>
        var e := element as int;
        && !elements.IsValidID(e)
        && elements.items == old(elements.items) - {e}
        && elements.Size() == old(elements.Size()) - 1
        && invalidations == old(invalidations) + [Invalidation(CompanyLeagueWindow, old(elements.items)[e].table)]
    {
      if current != OwnerDeity {
        return CmdError;
      }
      var lte := elements.GetIfValid(element as int);
      if lte.None? {
        return CmdError;
      }
      if flags.execute {
        var table := lte.value.table;
        elements := Pool(elements.ids, elements.items - {element as int});
        invalidations := invalidations + [Invalidation(CompanyLeagueWindow, table)];
      }
      return Succeeded;
    }
  }

  /**
   * The create-element command previewed without the execute flag and then
   * executed on the same state gets the same answer both times; the preview
   * hands out no id.
   */
  method PreviewThenCommitElement(
    game: LeagueGame, current: CompanyID, world: World,
    table: LeagueTableID, rating: int64, company: CompanyID,
    text: EncodedString, score: EncodedString, linkType: LinkType, linkTarget: nat)
    returns (preview: CommandCost, previewId: LeagueTableElementID, commit: CommandCost)
    requires game.Valid()
    modifies game
    ensures preview == commit
    ensures previewId == game.InvalidElement()
  {
    preview, previewId := game.CreateLeagueTableElement(DoCommandFlags(false), current, world, table, rating, company, text, score, linkType, linkTarget);
    var id;
    commit, id := game.CreateLeagueTableElement(DoCommandFlags(true), current, world, table, rating, company, text, score, linkType, linkTarget);
  }

  /**
   * The life of one element, issued by the deity: create a table, add an
   * element with no link, update its score, remove it. Each element command
   * invalidates the table's window once, and the element pool ends empty.
   */
  method ElementLifecycle(world: World, title: EncodedString)
    returns (table: LeagueTableID, log: seq<Invalidation>, population: nat)
    requires !title.IsEmpty()
    ensures log == [Invalidation(CompanyLeagueWindow, table), Invalidation(CompanyLeagueWindow, table), Invalidation(CompanyLeagueWindow, table)]
    ensures population == 0
  {
    var game := new LeagueGame(IdSpace(0x100, 255, 0xFF), IdSpace(0x1_0000, 64000, 0xFFFF));
    var execute := DoCommandFlags(true);
    var none := EncodedString([]);
    var cost;
    cost, table := game.CreateLeagueTable(execute, OwnerDeity, title, none, none);
    assert cost == Succeeded;
    var element;
    cost, element := game.CreateLeagueTableElement(execute, OwnerDeity, world, table, 100, InvalidCompany, none, none, LinkNone, 0);
    assert cost == Succeeded;
    assert game.elements.items[element as int].rating == 100;
    cost := game.UpdateLeagueTableElementScore(execute, OwnerDeity, element, 200, none);
    assert cost == Succeeded;
    cost := game.RemoveLeagueTableElement(execute, OwnerDeity, element);
    assert cost == Succeeded;
    log := game.invalidations;
    population := game.elements.Size();
  }
}
