/**
 * Fronter channels: a category of voice channels, one per member currently
 * fronting. Reconciling the category deletes the channels of members who no
 * longer front, creates channels for members who started fronting, and then
 * moves every channel to the position its member was given.
 *
 * Platform calls are oracles: `deleteOk` says whether deleting a channel
 * succeeds, `create` gives the channel a create request produces, or None
 * when it fails. Fetches that may fail are `Option` inputs.
 */
module Fronters {
  import opened Wrappers
  import opened Collections

  type u16 = x: int | 0 <= x < 0x1_0000
  type Id = nat

  const DefaultCategoryName := "current fronters"

  datatype ChannelKind = Text | Voice | Category | Other

  datatype GuildChannel = GuildChannel(id: Id, name: string, kind: ChannelKind, parent: Option<Id>, position: u16)

  datatype Guild = Guild(id: Id, name: string)

  datatype FronterError =
    | NoFronterCategory(guildId: Id, guildName: string)
    | Upstream

  datatype CreateRequest = CreateRequest(name: string, kind: ChannelKind, position: Option<u16>, parent: Option<Id>)

  /** One call made to the platform. */
  datatype ChannelCall =
    | DeleteCall(channelId: Id, name: string)
    | CreateCall(request: CreateRequest)
    | EditCall(channelId: Id, name: string, position: u16)

  // ---------------------------------------------------------------------
  // Lookups

  /**
   * An entry of the registry's fronter list: a bare member id, or a full
   * member, held here by the name the member is shown under.
   */
  datatype FronterEntry = IdOnly(id: string) | Full(memberName: string)

  /** The names of the fully described fronters. */
  function DesiredFronters(entries: seq<FronterEntry>): (names: set<string>)
    ensures forall n :: n in names <==> Full(n) in entries
  {
    set e | e in entries && e.Full? :: e.memberName
  }

  function LowerChar(c: char): char {
    if 'A' <= c <= 'Z' then (c as int + 32) as char else c
  }

  /** ASCII lower case. */
  function Lower(s: string): string {
    seq(|s|, i requires 0 <= i < |s| => LowerChar(s[i]))
  }

  predicate InCategory(catId: Id, c: GuildChannel) {
    c.parent == Some(catId)
  }

  /** The channels whose parent is the category; fails when the fetch failed. */
  function GetFronterChannels(fetched: Option<seq<GuildChannel>>, catId: Id): (r: Result<seq<GuildChannel>, FronterError>)
    ensures fetched.None? <==> r == Err(Upstream)
    ensures r.Ok? ==> forall c :: c in r.value <==> c in fetched.value && c.parent == Some(catId)
    ensures r.Ok? ==> forall c :: multiset(r.value)[c] == if c.parent == Some(catId) then multiset(fetched.value)[c] else 0
  {
    match fetched
    case None => Err(Upstream)
    case Some(channels) => Ok(Filter(channels, c => InCategory(catId, c)))
  }

  predicate IsCategoryNamed(c: GuildChannel, name: string) {
    c.kind == Category && Lower(c.name) == Lower(name)
  }

  /** The first category in `channels` named `name`, ignoring ASCII case. */
  function FindCategory(channels: seq<GuildChannel>, name: string): (r: Option<GuildChannel>)
    ensures r.None? <==> forall c :: c in channels ==> !IsCategoryNamed(c, name)
    ensures r.Some? ==> exists i :: (0 <= i < |channels| && channels[i] == r.value && IsCategoryNamed(channels[i], name)
      && forall j :: 0 <= j < i ==> !IsCategoryNamed(channels[j], name))
  {
    if channels == [] then None
    else if IsCategoryNamed(channels[0], name) then Some(channels[0])
    else
      var r := FindCategory(channels[1..], name);
      assert forall c :: c in channels ==> c == channels[0] || c in channels[1..];
      if r.Some? then
        var i :| 0 <= i < |channels[1..]| && channels[1..][i] == r.value && IsCategoryNamed(channels[1..][i], name)
          && forall j :: 0 <= j < i ==> !IsCategoryNamed(channels[1..][j], name);
        assert channels[i + 1] == r.value;
        r
      else r
  }

  /**
   * The fronter category: a category channel whose name matches the
   * requested name (by default "current fronters") ignoring case.
   */
  function GetFronterCategory(fetched: Option<seq<GuildChannel>>, guild: Guild, optName: Option<string>)
    : (r: Result<GuildChannel, FronterError>)
    ensures fetched.None? ==> r == Err(Upstream)
    ensures fetched.Some? ==> (r.Ok? <==> exists c :: c in fetched.value && IsCategoryNamed(c, optName.GetOr(DefaultCategoryName)))
    ensures r.Ok? ==> r.value in fetched.value && IsCategoryNamed(r.value, optName.GetOr(DefaultCategoryName))
    ensures fetched.Some? && r.Err? ==> r.error == NoFronterCategory(guild.id, guild.name)
  {
    match fetched
    case None => Err(Upstream)
    case Some(channels) =>
      match FindCategory(channels, optName.GetOr(DefaultCategoryName))
      case None => Err(NoFronterCategory(guild.id, guild.name))
      case Some(cat) => Ok(cat)
  }

  function CategoryRequest(name: string): CreateRequest {
    CreateRequest(name, Category, None, None)
  }

  /**
   * Setting up the category, as written: a missing category is reported
   * instead of created, and a failed fetch leads to creating one.
   */
  function CreateOrGetFronterChannel(fetched: Option<seq<GuildChannel>>, guild: Guild, catName: string,
                                     create: CreateRequest -> Option<GuildChannel>)
    : (r: Result<GuildChannel, FronterError>)
    ensures fetched.Some? ==> r == GetFronterCategory(fetched, guild, Some(catName))
    ensures fetched.None? ==> r == if create(CategoryRequest(catName)).Some? then Ok(create(CategoryRequest(catName)).value) else Err(Upstream)
  {
    match GetFronterCategory(fetched, guild, Some(catName))
    case Ok(cat) => Ok(cat)
    case Err(err) =>
      if err.NoFronterCategory? then Err(err)
      else
        match create(CategoryRequest(catName))
        case None => Err(Upstream)
        case Some(channel) => Ok(channel)
  }

  /** A server without the category gets an error, and no category is created. */
  lemma MissingCategoryNotCreated(create: CreateRequest -> Option<GuildChannel>)
    ensures CreateOrGetFronterChannel(Some([]), Guild(1, "server"), "fronters", create)
      == Err(NoFronterCategory(1, "server"))
  {
  }

  /** Setting up the category as intended: create it exactly when it is missing. */
  function CreateOrGetFronterCategory(fetched: Option<seq<GuildChannel>>, guild: Guild, catName: string,
                                      create: CreateRequest -> Option<GuildChannel>)
    : (r: Result<GuildChannel, FronterError>)
    ensures fetched.None? ==> r == Err(Upstream)
    ensures r.Err? ==> r.error == Upstream
    ensures fetched.Some? && FindCategory(fetched.value, catName).Some? ==> r == Ok(FindCategory(fetched.value, catName).value)
    ensures fetched.Some? && FindCategory(fetched.value, catName).None? ==>
      r == if create(CategoryRequest(catName)).Some? then Ok(create(CategoryRequest(catName)).value) else Err(Upstream)
  {
    match GetFronterCategory(fetched, guild, Some(catName))
    case Ok(cat) => Ok(cat)
    case Err(err) =>
      if err.Upstream? then Err(err)
      else
        match create(CategoryRequest(catName))
        case None => Err(Upstream)
        case Some(channel) => Ok(channel)
  }

  /** After setup, the server has a fronter category unless a platform call failed. */
  lemma SetupFindsOrCreates(fetched: seq<GuildChannel>, guild: Guild, catName: string,
                            create: CreateRequest -> Option<GuildChannel>)
    requires create(CategoryRequest(catName)).Some?
    ensures CreateOrGetFronterCategory(Some(fetched), guild, catName, create).Ok?
    ensures var cat := CreateOrGetFronterCategory(Some(fetched), guild, catName, create).value;
      (cat in fetched && IsCategoryNamed(cat, catName)) || cat == create(CategoryRequest(catName)).value
  {
  }

  // ---------------------------------------------------------------------
  // Positions

  /** Positions 0 to |desired|-1, handed out one per desired name. */
  predicate PositionsFor(pos: map<string, u16>, desired: set<string>) {
    && pos.Keys == desired
    && (forall a, b :: a in pos && b in pos && pos[a] == pos[b] ==> a == b)
    && (forall n :: n in pos ==> pos[n] < |desired|)
  }

  /**
   * The position map built by enumerating the desired names; None when
   * there are more names than 16-bit positions (the conversion panics).
   */
  function Positions(order: seq<string>): (r: Option<map<string, u16>>)
    requires NoDups(order)
    ensures r.None? <==> |order| > 0x1_0000
    ensures r.Some? ==> forall i :: 0 <= i < |order| ==> order[i] in r.value && r.value[order[i]] == i
    ensures r.Some? ==> PositionsFor(r.value, set n | n in order)
  {
    if |order| > 0x1_0000 then None
    else
      var pos := map i | 0 <= i < |order| :: order[i] := i as u16;
      PositionsOnto(order, pos);
      Some(pos)
  }

  lemma PositionsOnto(order: seq<string>, pos: map<string, u16>)
    requires NoDups(order) && |order| <= 0x1_0000
    requires forall n :: n in pos <==> n in order
    requires forall i :: 0 <= i < |order| ==> pos[order[i]] == i
    ensures PositionsFor(pos, set n | n in order)
  {
    var desired := set n | n in order;
    NoDupsCard(order);
    forall n | n in pos ensures pos[n] < |desired| {
      var i :| 0 <= i < |order| && order[i] == n;
    }
  }

  lemma {:induction false} NoDupsCard(order: seq<string>)
    requires NoDups(order)
    ensures |set n | n in order| == |order|
  {
    if order != [] {
      var init, last := order[..|order| - 1], order[|order| - 1];
      assert NoDups(init);
      NoDupsCard(init);
      assert (set n | n in order) == (set n | n in init) + {last};
      assert last !in init;
    }
  }

  // ---------------------------------------------------------------------
  // The three passes over the channel map

  /** The channels of the category keyed by name; a later channel wins a shared name. */
  function NameMap(channels: seq<GuildChannel>): (m: map<string, GuildChannel>)
    ensures forall n :: n in m <==> exists c :: c in channels && c.name == n
    ensures forall n :: n in m ==> m[n] in channels && m[n].name == n
  {
    var m := Collect(channels, (c: GuildChannel) => c.name, (c: GuildChannel) => c);
    forall n | exists c :: c in channels && c.name == n
      ensures n in m
    {
      var c :| c in channels && c.name == n;
      CollectHasKey(channels, (c: GuildChannel) => c.name, (c: GuildChannel) => c, c);
    }
    m
  }

  /** The map after deleting the stale names whose delete succeeded. */
  function AfterDeletes(m: map<string, GuildChannel>, stale: set<string>, deleteOk: GuildChannel -> bool)
    : map<string, GuildChannel>
  {
    map n | n in m && !(n in stale && deleteOk(m[n])) :: m[n]
  }

  /** The request that creates the channel of a fronter. */
  function Request(name: string, pos: map<string, u16>, catId: Id): CreateRequest
    requires name in pos
  {
    CreateRequest(name, Voice, Some(pos[name]), Some(catId))
  }

  /** The map after inserting the channels whose create succeeded. */
  function AfterCreates(m: map<string, GuildChannel>, missing: set<string>, pos: map<string, u16>, catId: Id,
                        create: CreateRequest -> Option<GuildChannel>)
    : map<string, GuildChannel>
    requires missing <= pos.Keys
  {
    map n | n in m.Keys + missing && (n in m || create(Request(n, pos, catId)).Some?) ::
      if n in missing && create(Request(n, pos, catId)).Some? then create(Request(n, pos, catId)).value else m[n]
  }

  /** One delete call per stale name, for that name's channel, and no other call. */
  predicate DeletesReport(m: map<string, GuildChannel>, stale: set<string>, deletes: seq<ChannelCall>) {
    && |deletes| == |stale|
    && (forall n :: n in stale && n in m ==> DeleteCall(m[n].id, n) in deletes)
    && (forall c :: c in deletes ==> c.DeleteCall? && c.name in stale && c.name in m && c.channelId == m[c.name].id)
  }

  /** One create call per missing name, for a voice channel at its position, and no other call. */
  predicate CreatesReport(missing: set<string>, pos: map<string, u16>, catId: Id, creates: seq<ChannelCall>) {
    && |creates| == |missing|
    && (forall n :: n in missing && n in pos ==> CreateCall(Request(n, pos, catId)) in creates)
    && (forall c :: c in creates ==>
          c.CreateCall? && c.request.name in missing && c.request.name in pos && c.request == Request(c.request.name, pos, catId))
  }

  /** Every edit call moves a channel that is away from its position to it. */
  predicate EditsSound(m: map<string, GuildChannel>, pos: map<string, u16>, edits: seq<ChannelCall>) {
    forall c :: c in edits ==>
      && c.EditCall? && c.name in m && c.name in pos
      && c == EditCall(m[c.name].id, c.name, pos[c.name]) && m[c.name].position != pos[c.name]
  }

  /** Every channel away from its position is asked to move. */
  predicate EditsComplete(m: map<string, GuildChannel>, pos: map<string, u16>, edits: seq<ChannelCall>) {
    forall n :: n in pos && n in m && m[n].position != pos[n] ==> EditCall(m[n].id, n, pos[n]) in edits
  }

  /** The delete calls made in list order, reported against the set of names. */
  lemma DeletesReported(m: map<string, GuildChannel>, stale: seq<string>, deletes: seq<ChannelCall>)
    requires NoDups(stale)
    requires |deletes| == |stale|
    requires forall i :: 0 <= i < |stale| ==> stale[i] in m && deletes[i] == DeleteCall(m[stale[i]].id, stale[i])
    ensures DeletesReport(m, (set n | n in stale), deletes)
  {
    NoDupsCard(stale);
    forall n | n in stale && n in m ensures DeleteCall(m[n].id, n) in deletes {
      var i :| 0 <= i < |stale| && stale[i] == n;
      assert deletes[i] == DeleteCall(m[n].id, n);
    }
    forall c | c in deletes ensures c.DeleteCall? && c.name in stale && c.name in m && c.channelId == m[c.name].id {
      var i :| 0 <= i < |deletes| && deletes[i] == c;
      assert stale[i] in stale;
    }
  }

  lemma CreatesReported(missing: seq<string>, pos: map<string, u16>, catId: Id, creates: seq<ChannelCall>)
    requires NoDups(missing)
    requires |creates| == |missing|
    requires forall i :: 0 <= i < |missing| ==> missing[i] in pos && creates[i] == CreateCall(Request(missing[i], pos, catId))
    ensures CreatesReport((set n | n in missing), pos, catId, creates)
  {
    NoDupsCard(missing);
    forall n | n in missing && n in pos ensures CreateCall(Request(n, pos, catId)) in creates {
      var i :| 0 <= i < |missing| && missing[i] == n;
      assert creates[i] == CreateCall(Request(n, pos, catId));
    }
    forall c | c in creates
      ensures c.CreateCall? && c.request.name in missing && c.request.name in pos && c.request == Request(c.request.name, pos, catId)
    {
      var i :| 0 <= i < |creates| && creates[i] == c;
      assert missing[i] in missing;
    }
  }

  /**
   * The delete pass: one delete call per stale name, in hash order; an entry
   * leaves the map only when its delete succeeded.
   */
  method DeleteStale(m: map<string, GuildChannel>, stale: set<string>, deleteOk: GuildChannel -> bool)
    returns (m': map<string, GuildChannel>, deletes: seq<ChannelCall>)
    requires stale <= m.Keys
    ensures m' == AfterDeletes(m, stale, deleteOk)
    ensures DeletesReport(m, stale, deletes)
  {
    var order := Enumerate(stale);
    m', deletes := m, [];
    for i := 0 to |order|
      invariant forall n :: n in m' <==> n in m && !(n in order[..i] && deleteOk(m[n]))
      invariant forall n :: n in m' ==> m'[n] == m[n]
      invariant |deletes| == i && forall j :: 0 <= j < i ==> deletes[j] == DeleteCall(m[order[j]].id, order[j])
    {
      var name := order[i];
      assert forall j :: 0 <= j < i ==> order[j] != name;
      var channel := m'[name];
      deletes := deletes + [DeleteCall(channel.id, name)];
      if deleteOk(channel) {
        m' := m' - {name};
      }
      assert order[..i + 1] == order[..i] + [name];
    }
    assert order[..|order|] == order;
    assert (set n | n in order) == stale;
    DeletedMap(m, m', stale, deleteOk);
    DeletesReported(m, order, deletes);
  }

  /** The map the delete loop ends with, described name by name, is `AfterDeletes`. */
  lemma DeletedMap(m: map<string, GuildChannel>, m': map<string, GuildChannel>, stale: set<string>,
                   deleteOk: GuildChannel -> bool)
    requires forall n :: n in m' <==> n in m && !(n in stale && deleteOk(m[n]))
    requires forall n :: n in m' ==> m'[n] == m[n]
    ensures m' == AfterDeletes(m, stale, deleteOk)
  {
  }

  /**
   * The create pass: one voice-channel create call per missing name, in hash
   * order, under the category at the name's position; an entry is added only
   * when its create succeeded.
   */
  method CreateMissing(m: map<string, GuildChannel>, missing: set<string>, pos: map<string, u16>, catId: Id,
                       create: CreateRequest -> Option<GuildChannel>)
    returns (m': map<string, GuildChannel>, creates: seq<ChannelCall>)
    requires missing <= pos.Keys
    ensures m' == AfterCreates(m, missing, pos, catId, create)
    ensures CreatesReport(missing, pos, catId, creates)
  {
    var order := Enumerate(missing);
    m', creates := m, [];
    for i := 0 to |order|
      invariant forall n :: n in m' <==> n in m || (n in order[..i] && create(Request(n, pos, catId)).Some?)
      invariant forall n :: n in m' ==> (m'[n] ==
        if n in order[..i] && create(Request(n, pos, catId)).Some? then create(Request(n, pos, catId)).value else m[n])
      invariant |creates| == i && forall j :: 0 <= j < i ==> creates[j] == CreateCall(Request(order[j], pos, catId))
    {
      var name := order[i];
      var request := Request(name, pos, catId);
      creates := creates + [CreateCall(request)];
      match create(request)
      case None =>
      case Some(channel) =>
        m' := m'[name := channel];
      assert order[..i + 1] == order[..i] + [name];
    }
    assert order[..|order|] == order;
    assert (set n | n in order) == missing;
    CreatedMap(m, m', missing, pos, catId, create);
    CreatesReported(order, pos, catId, creates);
  }

  /** The map the create loop ends with, described name by name, is `AfterCreates`. */
  lemma CreatedMap(m: map<string, GuildChannel>, m': map<string, GuildChannel>, missing: set<string>,
                   pos: map<string, u16>, catId: Id, create: CreateRequest -> Option<GuildChannel>)
    requires missing <= pos.Keys
    requires forall n :: n in m' <==> n in m || (n in missing && create(Request(n, pos, catId)).Some?)
    requires forall n :: n in m' ==> (m'[n] ==
        if n in missing && create(Request(n, pos, catId)).Some? then create(Request(n, pos, catId)).value else m[n])
    ensures m' == AfterCreates(m, missing, pos, catId, create)
  {
  }

  /** The edit calls for the listed names whose channel is not at its position. */
  function Edits(m: map<string, GuildChannel>, pos: map<string, u16>, names: seq<string>): (calls: seq<ChannelCall>)
    requires forall n :: n in names ==> n in m && n in pos
    ensures forall c :: c in calls ==> (c.EditCall? && c.name in names
      && c == EditCall(m[c.name].id, c.name, pos[c.name]) && m[c.name].position != pos[c.name])
    ensures forall n :: n in names && m[n].position != pos[n] ==> EditCall(m[n].id, n, pos[n]) in calls
  {
    if names == [] then []
    else
      var init, last := names[..|names| - 1], names[|names| - 1];
      assert forall n :: n in names ==> n in init || n == last;
      Edits(m, pos, init) + if m[last].position == pos[last] then [] else [EditCall(m[last].id, last, pos[last])]
  }

  /**
   * The position pass: walks the positions in hash order and asks to move
   * each channel not at its position; edit failures are skipped. It stops at
   * the first name without a channel, where the lookup panics.
   */
  method Reposition(m: map<string, GuildChannel>, pos: map<string, u16>)
    returns (panicAt: Option<string>, edits: seq<ChannelCall>)
    ensures panicAt.None? <==> pos.Keys <= m.Keys
    ensures panicAt.Some? ==> panicAt.value in pos && panicAt.value !in m
    ensures EditsSound(m, pos, edits)
    ensures panicAt.None? ==> EditsComplete(m, pos, edits)
  {
    var order := Enumerate(pos.Keys);
    var stop := 0;
    edits := [];
    while stop < |order| && order[stop] in m
      invariant stop <= |order|
      invariant forall j :: 0 <= j < stop ==> order[j] in m
      invariant edits == Edits(m, pos, order[..stop])
    {
      var name := order[stop];
      var channel := m[name];
      if channel.position != pos[name] {
        edits := edits + [EditCall(channel.id, name, pos[name])];
      }
      assert order[..stop + 1][..stop] == order[..stop];
      stop := stop + 1;
    }
    if stop < |order| {
      panicAt := Some(order[stop]);
    } else {
      panicAt := None;
      assert order[..stop] == order;
      forall n | n in pos ensures n in m {
        var j :| 0 <= j < |order| && order[j] == n;
      }
    }
  }

  // ---------------------------------------------------------------------
  // Reconciliation

  datatype Panic = PositionOverflow | MissingChannel(name: string)

  datatype Outcome = Completed | Failed(error: FronterError) | Panicked(reason: Panic)

  /** The fronters' channels keyed by name, before any change. */
  function CurrentMap(channels: seq<GuildChannel>, catId: Id): map<string, GuildChannel> {
    NameMap(GetFronterChannels(Some(channels), catId).value)
  }

  /** The channel map after the delete and create passes. */
  function Reconciled(current: map<string, GuildChannel>, desired: set<string>, pos: map<string, u16>, catId: Id,
                      deleteOk: GuildChannel -> bool, create: CreateRequest -> Option<GuildChannel>)
    : map<string, GuildChannel>
    requires desired <= pos.Keys
  {
    AfterCreates(AfterDeletes(current, current.Keys - desired, deleteOk), desired - current.Keys, pos, catId, create)
  }

  /**
   * Reconciles the category's channels with the names of the fully described
   * fronters in the registry's list, returning the
   * calls of the delete, create and position passes, made in that order.
   * The map of channels by name loses the stale names whose delete
   * succeeded and gains the new names whose create succeeded; failed calls
   * are skipped. The position pass panics at a desired name without a
   * channel, which happens exactly when one of its creates failed.
   */
  method UpdateFronterChannels(fetchedChannels: Option<seq<GuildChannel>>, fetchedFronters: Option<seq<FronterEntry>>,
                               cat: GuildChannel, deleteOk: GuildChannel -> bool,
                               create: CreateRequest -> Option<GuildChannel>)
    returns (outcome: Outcome, deletes: seq<ChannelCall>, creates: seq<ChannelCall>, edits: seq<ChannelCall>,
             channels: map<string, GuildChannel>, pos: map<string, u16>)
    ensures outcome.Failed? <==> fetchedChannels.None? || fetchedFronters.None?
    ensures outcome.Failed? ==> outcome.error == Upstream
    ensures !outcome.Failed? ==> (outcome == Panicked(PositionOverflow) <==> |DesiredFronters(fetchedFronters.value)| > 0x1_0000)
    ensures outcome.Failed? || outcome == Panicked(PositionOverflow) ==> deletes == creates == edits == []
    ensures outcome.Completed? || (outcome.Panicked? && outcome.reason.MissingChannel?) ==>
      var current := CurrentMap(fetchedChannels.value, cat.id);
      var desired := DesiredFronters(fetchedFronters.value);
      && PositionsFor(pos, desired)
      && DeletesReport(current, current.Keys - desired, deletes)
      && CreatesReport(desired - current.Keys, pos, cat.id, creates)
      && channels == Reconciled(current, desired, pos, cat.id, deleteOk, create)
      && EditsSound(channels, pos, edits)
      && (outcome.Completed? <==> desired <= channels.Keys)
      && (outcome.Completed? ==> EditsComplete(channels, pos, edits))
      && (outcome.Panicked? ==> outcome.reason.name in desired && outcome.reason.name !in channels)
  {
    deletes, creates, edits, channels, pos := [], [], [], map[], map[];
    if fetchedChannels.None? || fetchedFronters.None? {
      return Failed(Upstream), deletes, creates, edits, channels, pos;
    }
    var current := CurrentMap(fetchedChannels.value, cat.id);
    var desired := DesiredFronters(fetchedFronters.value);
    var order := Enumerate(desired);
    var positions := Positions(order);
    if positions.None? {
      return Panicked(PositionOverflow), deletes, creates, edits, channels, pos;
    }
    pos := positions.value;
    assert (set n | n in order) == desired;
    channels, deletes := DeleteStale(current, current.Keys - desired, deleteOk);
    channels, creates := CreateMissing(channels, desired - current.Keys, pos, cat.id, create);
    var panicAt;
    panicAt, edits := Reposition(channels, pos);
    outcome := if panicAt.None? then Completed else Panicked(MissingChannel(panicAt.value));
  }

  /**
   * Every desired name has a channel after the two passes exactly when every
   * create was answered with a channel.
   */
  lemma AllPlacedIffCreatesSucceed(current: map<string, GuildChannel>, desired: set<string>, pos: map<string, u16>,
                                   catId: Id, deleteOk: GuildChannel -> bool,
                                   create: CreateRequest -> Option<GuildChannel>)
    requires desired <= pos.Keys
    ensures desired <= Reconciled(current, desired, pos, catId, deleteOk, create).Keys
      <==> forall n :: n in desired - current.Keys ==> create(Request(n, pos, catId)).Some?
  {
    var kept := AfterDeletes(current, current.Keys - desired, deleteOk);
    assert forall n :: n in desired && n in current ==> n in kept;
    assert forall n :: n in desired - current.Keys ==> n !in kept;
  }

  /** A desired name whose create failed panics the position pass. */
  lemma FailedCreatePanics()
    ensures var pos := map["Alex" := 0 as u16];
      var after := Reconciled(map[], {"Alex"}, pos, 1, _ => true, _ => None);
      "Alex" !in after
  {
  }

  /**
   * The names with a channel after the two passes: desired names that had
   * one, stale names whose delete failed, and new names whose create
   * succeeded.
   */
  lemma ReconciledKeys(current: map<string, GuildChannel>, desired: set<string>, pos: map<string, u16>,
                       catId: Id, deleteOk: GuildChannel -> bool, create: CreateRequest -> Option<GuildChannel>, n: string)
    requires desired <= pos.Keys
    ensures n in Reconciled(current, desired, pos, catId, deleteOk, create) <==>
      || (n in current && n in desired)
      || (n in current && n !in desired && !deleteOk(current[n]))
      || (n in desired && n !in current && create(Request(n, pos, catId)).Some?)
  {
  }

  /**
   * The position pass as intended: a name without a channel is skipped like
   * any other failure, so every misplaced channel is asked to move and the
   * pass never panics.
   */
  method RepositionSkipping(m: map<string, GuildChannel>, pos: map<string, u16>) returns (edits: seq<ChannelCall>)
    ensures EditsSound(m, pos, edits)
    ensures EditsComplete(m, pos, edits)
  {
    var order := Enumerate(pos.Keys);
    edits := [];
    for i := 0 to |order|
      invariant EditsSound(m, pos, edits)
      invariant forall j :: 0 <= j < i && order[j] in m && m[order[j]].position != pos[order[j]] ==>
        EditCall(m[order[j]].id, order[j], pos[order[j]]) in edits
    {
      var name := order[i];
      if name in m && m[name].position != pos[name] {
        edits := edits + [EditCall(m[name].id, name, pos[name])];
      }
    }
    forall n | n in pos && n in m && m[n].position != pos[n] ensures EditCall(m[n].id, n, pos[n]) in edits {
      var j :| 0 <= j < |order| && order[j] == n;
    }
  }
}
