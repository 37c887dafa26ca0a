/**
 * Players (src/commands/players.rs): each guild keeps a list linking Discord users
 * to Steam ids, and `find_common_games` intersects the libraries of the named
 * players and packs the result into messages of bounded size.
 *
 * The Discord member list, the Steam vanity-name resolver and the owned-games
 * service are inputs to the model; a SteamID is held as its `u64` form.
 */
module Players {
  import opened Wrappers
  import opened Text
  import opened Seqs
  import Steam
  import opened Discord

  /** `Player::Steam(user, id)`, the source's only variant; `discord` and `steam`
      are its two accessors. */
  datatype Player = Player(discord: UserId, steam: U64)

  // ---------------------------------------------------------------------------
  // The upsert of `add_steam_id`

  /** At most one entry per Discord user. */
  predicate UniqueUsers(list: seq<Player>)
  {
    forall i, j :: 0 <= i < j < |list| ==> list[i].discord != list[j].discord
  }

  /** The first entry that belongs to `user`. */
  function IndexOfUser(list: seq<Player>, user: UserId): (r: Option<nat>)
    ensures r.Some? ==> r.value < |list| && list[r.value].discord == user
                        && forall j :: 0 <= j < r.value ==> list[j].discord != user
    ensures r.None? <==> forall j :: 0 <= j < |list| ==> list[j].discord != user
  {
    Position(list, (p: Player) => p.discord == user)
  }

  datatype Upserted = Unchanged | Updated | Added

  /** What `add_steam_id` does to a guild's list: nothing when the user's first
      entry already holds `id`, a replacement at the same position when it holds
      another id, an append when the user has no entry. */
  function Upsert(list: seq<Player>, user: UserId, id: U64): (r: (seq<Player>, Upserted))
    ensures r.1 == Unchanged ==> r.0 == list
    ensures r.1 == Added <==> IndexOfUser(list, user).None?
    ensures r.1 == Added ==> r.0 == list + [Player(user, id)]
    ensures r.1 == Updated ==> |r.0| == |list|
  {
    match IndexOfUser(list, user)
    case None => (list + [Player(user, id)], Added)
    case Some(i) =>
      if list[i].steam == id then (list, Unchanged)
      else (list[i := Player(user, id)], Updated)
  }

  /** After the upsert `user` is linked to `id`, at the position of their first
      entry or at the end, and every other entry is where it was. */
  lemma UpsertLinks(list: seq<Player>, user: UserId, id: U64)
    ensures var (r, how) := Upsert(list, user, id);
      && (how == Added ==> |r| == |list| + 1 && r[|list|] == Player(user, id))
      && (how != Added ==> IndexOfUser(list, user).Some? && |r| == |list|
                           && var k := IndexOfUser(list, user).value;
                           && r[k] == Player(user, id)
                           && forall j :: 0 <= j < |r| && j != k ==> r[j] == list[j])
      && (how == Unchanged <==> exists k :: 0 <= k < |list| && list[k] == Player(user, id)
                                           && forall j :: 0 <= j < k ==> list[j].discord != user)
  {
    var (r, how) := Upsert(list, user, id);
    match IndexOfUser(list, user)
    case None =>
    case Some(i) =>
      assert r[i] == Player(user, id);
      if how == Unchanged {
        assert list[i] == Player(user, id);
      } else {
        forall k | 0 <= k < |list| && list[k] == Player(user, id) ensures exists j :: 0 <= j < k && list[j].discord == user {
          assert k != i;
          assert i < k;
        }
      }
  }

  /** The upsert keeps "at most one entry per Discord user". */
  lemma UpsertKeepsUnique(list: seq<Player>, user: UserId, id: U64)
    requires UniqueUsers(list)
    ensures UniqueUsers(Upsert(list, user, id).0)
  {
    var r := Upsert(list, user, id).0;
    match IndexOfUser(list, user)
    case None =>
      forall i, j | 0 <= i < j < |r| ensures r[i].discord != r[j].discord {
        if j == |list| {
          assert r[i] == list[i];
        }
      }
    case Some(k) =>
      forall i, j | 0 <= i < j < |r| ensures r[i].discord != r[j].discord {
        if i == k || j == k {
          assert r[k].discord == list[k].discord;
        }
      }
  }

  /** Entries of other users are never touched. */
  lemma UpsertKeepsOthers(list: seq<Player>, user: UserId, id: U64, j: nat)
    requires j < |list| && list[j].discord != user
    ensures j < |Upsert(list, user, id).0| && Upsert(list, user, id).0[j] == list[j]
  {
  }

  /** All guilds' lists have at most one entry per Discord user. */
  predicate AllUnique(m: map<GuildId, seq<Player>>)
  {
    forall g :: g in m ==> UniqueUsers(m[g])
  }

  lemma UpsertKeepsAllUnique(m: map<GuildId, seq<Player>>, g: GuildId, user: UserId, id: U64)
    requires AllUnique(m)
    ensures AllUnique(m[g := Upsert(GuildList(m, g), user, id).0])
  {
    UpsertKeepsUnique(GuildList(m, g), user, id);
  }

  /** What `add_steam_id` reports. */
  datatype AddOutcome =
    | NotInGuild          // the message did not come from a guild channel
    | MissingId           // no argument
    | InvalidId           // neither a u64 nor a vanity name Steam knows
    | Linked(how: Upserted)

  /** How `add_steam_id` reads its argument: a `u64`, or else a vanity name that
      the Steam resolver turns into an id. */
  function SteamIdOf(arg: string, resolveVanity: string -> Option<U64>): (r: Option<U64>)
    ensures ParseU64(arg).Some? ==> r == ParseU64(arg)
    ensures ParseU64(arg).None? ==> r == resolveVanity(arg)
  {
    match ParseU64(arg)
    case Some(n) => Some(n)
    case None => resolveVanity(arg)
  }

  /** `PlayerContainer`: every guild's player list. */
  class PlayerStore {
    var lists: map<GuildId, seq<Player>>

    ghost predicate Valid()
      reads this
    {
      AllUnique(lists)
    }

    /** `PlayerContainer::new`. */
    constructor ()
      ensures Valid() && lists == map[]
    {
      lists := map[];
    }

    /** The store step of `add_steam_id`: scan the guild's list for the author's
        entry and leave it, overwrite it, or append a new one. */
    method Link(g: GuildId, user: UserId, id: U64) returns (how: Upserted)
      modifies this
      ensures how == Upsert(GuildList(old(lists), g), user, id).1
      ensures how == Unchanged ==> lists == old(lists)
      ensures how != Unchanged ==> lists == old(lists)[g := Upsert(GuildList(old(lists), g), user, id).0]
      ensures old(Valid()) ==> Valid()
    {
      ghost var was := lists;
      if Valid() {
        UpsertKeepsAllUnique(lists, g, user, id);
      }
      if g !in lists {
        assert GuildList(lists, g) + [Player(user, id)] == [Player(user, id)];
        lists := lists[g := [Player(user, id)]];
        return Added;
      }
      var existing := lists[g];
      var i := 0;
      while i < |existing|
        invariant i <= |existing|
        invariant forall j :: 0 <= j < i ==> existing[j].discord != user
        invariant lists == was
      {
        if existing[i].discord == user {
          assert IndexOfUser(existing, user) == Some(i);
          if existing[i].steam == id {
            return Unchanged;
          }
          lists := lists[g := existing[i := Player(user, id)]];
          return Updated;
        }
        i := i + 1;
      }
      lists := lists[g := existing + [Player(user, id)]];
      how := Added;
    }

    /** `find_common_games`: resolve the names, collect their Steam ids, fetch
        and intersect their libraries, and pack one line per common game into
        blocks. */
    method FindCommonGames(gid: Option<GuildId>, args: seq<string>, members: Option<seq<Member>>,
                           ownedGames: U64 -> Option<OwnedGames>, client: Steam.Client)
      returns (report: CommonReport)
      ensures report == CommonGamesReport(gid, args, members, lists, ownedGames, client)
    {
      if gid.None? {
        return NotFromGuild;
      }
      if members.None? {
        return MembersUnavailable;
      }
      var users := ResolveUsers(args, members.value);
      if |users| < 2 {
        return TooFewNames;
      }
      if gid.value !in lists {
        return NoGuildPlayers;
      }
      var ids := CollectSteamIds(users, lists[gid.value]);
      if |ids| < 2 {
        return TooFewIds;
      }
      var libraries := FetchLibraries(ids, ownedGames);
      if libraries == [] {
        return NoLibraries;
      }
      var first := libraries[|libraries| - 1];
      var rest := libraries[..|libraries| - 1];
      var common := first;
      var i := 0;
      while i < |rest|
        invariant i <= |rest|
        invariant common == FoldCommon(first, rest[..i])
      {
        assert rest[..i + 1][..i] == rest[..i];
        common := FindCommon(common, rest[i]);
        i := i + 1;
      }
      assert rest[..i] == rest;
      if common.gameCount == 0 || common.games == [] {
        return NoSharedGames;
      }
      var lines := GameLines(common.games, client);
      assert lines == Lines(common.games, client);
      var blocks := PackBlocks(lines);
      report := Listed(blocks);
    }

    /** `add_steam_id`. */
    method AddSteamId(gid: Option<GuildId>, user: UserId, args: seq<string>,
                      resolveVanity: string -> Option<U64>) returns (outcome: AddOutcome)
      modifies this
      ensures gid.None? ==> outcome == NotInGuild
      ensures gid.Some? && args == [] ==> outcome == MissingId
      ensures gid.Some? && args != [] && SteamIdOf(args[0], resolveVanity).None? ==> outcome == InvalidId
      ensures gid.Some? && args != [] && SteamIdOf(args[0], resolveVanity).Some? ==>
        var (list, how) := Upsert(GuildList(old(lists), gid.value), user, SteamIdOf(args[0], resolveVanity).value);
        && outcome == Linked(how)
        && (how != Unchanged ==> lists == old(lists)[gid.value := list])
      ensures !outcome.Linked? || outcome.how == Unchanged ==> lists == old(lists)
      ensures old(Valid()) ==> Valid()
    {
      if gid.None? {
        return NotInGuild;
      }
      if args == [] {
        return MissingId;
      }
      var id := SteamIdOf(args[0], resolveVanity);
      if id.None? {
        return InvalidId;
      }
      var how := Link(gid.value, user, id.value);
      outcome := Linked(how);
    }
  }

  // ---------------------------------------------------------------------------
  // Common games

  /** `rsteam::player_service::OwnedGame`: the fields `find_common` copies. */
  datatype OwnedGame = OwnedGame(
    appid: U32,
    name: Option<string>,
    playtimeForever: nat,
    imgIconUrl: Option<string>,
    imgLogoUrl: Option<string>,
    playtimeWindowsForever: nat,
    playtimeMacForever: nat,
    playtimeLinuxForever: nat)

  /** `rsteam::player_service::OwnedGames`. */
  datatype OwnedGames = OwnedGames(gameCount: U32, games: seq<OwnedGame>)

  /** `right.games.iter().any(|g| owned_game_eq(g, lgame))`: some game of `games`
      has this app id. */
  function HasApp(games: seq<OwnedGame>, appid: U32): (r: bool)
    ensures r <==> exists i :: 0 <= i < |games| && games[i].appid == appid
  {
    Any(games, (g: OwnedGame) => g.appid == appid)
  }

  /** The games of `left` whose app id occurs in `right`, in `left`'s order. */
  function Common(left: seq<OwnedGame>, right: seq<OwnedGame>): seq<OwnedGame>
  {
    if left == [] then []
    else
      var last := left[|left| - 1];
      Common(left[..|left| - 1], right) + (if HasApp(right, last.appid) then [last] else [])
  }

  /** A game is in the intersection exactly when it is in `left` and its app id
      occurs in `right`. */
  lemma {:induction false} CommonMembers(left: seq<OwnedGame>, right: seq<OwnedGame>, g: OwnedGame)
    ensures g in Common(left, right) <==> g in left && HasApp(right, g.appid)
    decreases |left|
  {
    if left != [] {
      var init := left[..|left| - 1];
      CommonMembers(init, right, g);
      assert left == init + [left[|left| - 1]];
    }
  }

  /** The intersection distributes over concatenation of `left`, so it keeps
      `left`'s order; it is never longer than `left`. */
  lemma {:induction false} CommonAppend(a: seq<OwnedGame>, b: seq<OwnedGame>, right: seq<OwnedGame>)
    ensures Common(a + b, right) == Common(a, right) + Common(b, right)
    ensures |Common(a, right)| <= |a|
    decreases |a| + |b|
  {
    if b == [] {
      assert a + b == a;
      if a != [] {
        CommonAppend(a[..|a| - 1], [], right);
      }
    } else {
      var init := b[..|b| - 1];
      assert (a + b)[..|a + b| - 1] == a + init;
      CommonAppend(a, init, right);
    }
  }

  /** `find_common` as a value: the intersection and its length `as u32`. */
  function CommonOf(left: OwnedGames, right: OwnedGames): (r: OwnedGames)
    ensures r.games == Common(left.games, right.games)
    ensures r.gameCount == |r.games| % U32_LIMIT
  {
    var games := Common(left.games, right.games);
    OwnedGames(|games| % U32_LIMIT, games)
  }

  /** `find_common`: walks `left` and pushes a copy of every game whose app id
      occurs in `right`, then sets `game_count` to the number pushed, truncated to
      `u32`. */
  method FindCommon(left: OwnedGames, right: OwnedGames) returns (mutual: OwnedGames)
    ensures mutual == CommonOf(left, right)
  {
    var games: seq<OwnedGame> := [];
    var i := 0;
    while i < |left.games|
      invariant i <= |left.games|
      invariant games == Common(left.games[..i], right.games)
    {
      var lgame := left.games[i];
      assert left.games[..i + 1][..i] == left.games[..i];
      if HasApp(right.games, lgame.appid) {
        games := games + [OwnedGame(lgame.appid, lgame.name, lgame.playtimeForever, lgame.imgIconUrl,
                                    lgame.imgLogoUrl, lgame.playtimeWindowsForever,
                                    lgame.playtimeMacForever, lgame.playtimeLinuxForever)];
      }
      i := i + 1;
    }
    assert left.games[..i] == left.games;
    mutual := OwnedGames(|games| % U32_LIMIT, games);
  }

  /** `rest.iter().fold(first, |acc, right| find_common(&acc, right))`. */
  function FoldCommon(first: OwnedGames, rest: seq<OwnedGames>): OwnedGames
  {
    if rest == [] then first
    else CommonOf(FoldCommon(first, rest[..|rest| - 1]), rest[|rest| - 1])
  }

  /** Every library holds a game with this app id. */
  predicate AllHaveApp(libraries: seq<OwnedGames>, appid: U32)
  {
    forall k :: 0 <= k < |libraries| ==> HasApp(libraries[k].games, appid)
  }

  /** Every library has the app exactly when all but the last do and the last
      one does too. */
  lemma AllHaveAppSnoc(libraries: seq<OwnedGames>, appid: U32)
    requires libraries != []
    ensures AllHaveApp(libraries, appid) <==>
              AllHaveApp(libraries[..|libraries| - 1], appid)
              && HasApp(libraries[|libraries| - 1].games, appid)
  {
    var init := libraries[..|libraries| - 1];
    if AllHaveApp(init, appid) && HasApp(libraries[|libraries| - 1].games, appid) {
      forall k | 0 <= k < |libraries| ensures HasApp(libraries[k].games, appid) {
        if k < |init| {
          assert libraries[k] == init[k];
        }
      }
    }
    if AllHaveApp(libraries, appid) {
      forall k | 0 <= k < |init| ensures HasApp(init[k].games, appid) {
        assert init[k] == libraries[k];
      }
    }
  }

  /** A game survives the fold exactly when it is in the accumulator's list and
      its app id occurs in every other list. */
  lemma {:induction false} FoldCommonMembers(first: OwnedGames, rest: seq<OwnedGames>, g: OwnedGame)
    ensures g in FoldCommon(first, rest).games <==> g in first.games && AllHaveApp(rest, g.appid)
    decreases |rest|
  {
    if rest != [] {
      var init := rest[..|rest| - 1];
      FoldCommonMembers(first, init, g);
      CommonMembers(FoldCommon(first, init).games, rest[|rest| - 1].games, g);
      AllHaveAppSnoc(rest, g.appid);
    }
  }

  /** The games of `games`, in order, whose app id occurs in every library of
      `libraries`: a filter stated without the fold. */
  function SharedGames(games: seq<OwnedGame>, libraries: seq<OwnedGames>): seq<OwnedGame>
  {
    if games == [] then []
    else
      var last := games[|games| - 1];
      SharedGames(games[..|games| - 1], libraries) + (if AllHaveApp(libraries, last.appid) then [last] else [])
  }

  /** Intersecting the filtered games with one more library filters by it too. */
  lemma {:induction false} SharedGamesSnoc(games: seq<OwnedGame>, libraries: seq<OwnedGames>, more: OwnedGames)
    ensures Common(SharedGames(games, libraries), more.games) == SharedGames(games, libraries + [more])
    decreases |games|
  {
    if games != [] {
      var init := games[..|games| - 1];
      var last := games[|games| - 1];
      var all := libraries + [more];
      SharedGamesSnoc(init, libraries, more);
      assert all[..|all| - 1] == libraries;
      AllHaveAppSnoc(all, last.appid);
      var kept := SharedGames(init, libraries);
      assert SharedGames(games, all) == SharedGames(init, all) + (if AllHaveApp(all, last.appid) then [last] else []);
      if AllHaveApp(libraries, last.appid) {
        var s := kept + [last];
        assert SharedGames(games, libraries) == s;
        assert s[..|s| - 1] == kept && s[|s| - 1] == last;
        assert Common(s, more.games) == Common(kept, more.games) + (if HasApp(more.games, last.appid) then [last] else []);
      } else {
        assert SharedGames(games, libraries) == kept + [];
        assert kept + [] == kept;
      }
    }
  }

  /** The fold keeps exactly the accumulator's games whose app id every other
      library has, in the accumulator's order. */
  lemma {:induction false} FoldCommonIsShared(first: OwnedGames, rest: seq<OwnedGames>)
    ensures FoldCommon(first, rest).games == SharedGames(first.games, rest)
    decreases |rest|
  {
    if rest == [] {
      SharedGamesOfNone(first.games, rest);
    } else {
      var init := rest[..|rest| - 1];
      FoldCommonIsShared(first, init);
      SharedGamesSnoc(first.games, init, rest[|rest| - 1]);
      assert init + [rest[|rest| - 1]] == rest;
    }
  }

  /** With no library to check against, every game is kept. */
  lemma {:induction false} SharedGamesOfNone(games: seq<OwnedGame>, libraries: seq<OwnedGames>)
    requires libraries == []
    ensures SharedGames(games, libraries) == games
    decreases |games|
  {
    if games != [] {
      SharedGamesOfNone(games[..|games| - 1], libraries);
    }
  }

  /** The common games of the fetched libraries: the last one is popped as the
      accumulator and intersected with each of the others in order; with no
      library there is no answer. */
  function CommonAcross(libraries: seq<OwnedGames>): (r: Option<OwnedGames>)
    ensures r.None? <==> libraries == []
  {
    if libraries == [] then None
    else Some(FoldCommon(libraries[|libraries| - 1], libraries[..|libraries| - 1]))
  }

  /** The common games are the popped library's games, in its order, filtered
      to those whose app id every other fetched library has. */
  lemma CommonAcrossIsShared(libraries: seq<OwnedGames>)
    requires libraries != []
    ensures CommonAcross(libraries).value.games ==
              SharedGames(libraries[|libraries| - 1].games, libraries[..|libraries| - 1])
  {
    FoldCommonIsShared(libraries[|libraries| - 1], libraries[..|libraries| - 1]);
  }

  /** Every common game is a game of the popped library whose app id occurs in
      every fetched library, and every such game is common. */
  lemma CommonAcrossMembers(libraries: seq<OwnedGames>, g: OwnedGame)
    requires libraries != []
    ensures g in CommonAcross(libraries).value.games <==>
              g in libraries[|libraries| - 1].games && AllHaveApp(libraries, g.appid)
  {
    var last := libraries[|libraries| - 1];
    FoldCommonMembers(last, libraries[..|libraries| - 1], g);
    AllHaveAppSnoc(libraries, g.appid);
    if g in last.games {
      assert HasApp(last.games, g.appid) by {
        var i :| 0 <= i < |last.games| && last.games[i] == g;
      }
    }
  }

  // ---------------------------------------------------------------------------
  // From display names to Steam ids

  /** A guild member as `gid.members` lists it. */
  datatype Member = Member(id: UserId, name: string, nick: Option<string>)

  /** The test made on each member: its nickname is `arg`, or its user name is. */
  predicate Matches(m: Member, arg: string)
  {
    m.nick == Some(arg) || m.name == arg
  }

  /** The id of the first member that matches `arg`, if any. */
  function ResolveName(members: seq<Member>, arg: string): (r: Option<UserId>)
    ensures r.Some? <==> exists i :: 0 <= i < |members| && Matches(members[i], arg)
    ensures r.Some? ==> exists i :: 0 <= i < |members| && Matches(members[i], arg) && members[i].id == r.value
                                   && forall j :: 0 <= j < i ==> !Matches(members[j], arg)
  {
    match Find(members, (m: Member) => Matches(m, arg))
    case Some(m) => Some(m.id)
    case None => None
  }

  /** A member that matches, with none matching before it, is the one resolved. */
  lemma FirstMatchResolves(members: seq<Member>, arg: string, i: nat)
    requires i < |members| && Matches(members[i], arg)
    requires forall j :: 0 <= j < i ==> !Matches(members[j], arg)
    ensures ResolveName(members, arg) == Some(members[i].id)
  {
    var k :| 0 <= k < |members| && Matches(members[k], arg) && members[k].id == ResolveName(members, arg).value
             && forall j :: 0 <= j < k ==> !Matches(members[j], arg);
    assert !(k < i) && !(i < k);
  }

  /** The inner loop of the name resolution: the nickname is tried before the user
      name on each member, and the first member that matches either wins. */
  method ResolveMember(members: seq<Member>, arg: string) returns (r: Option<UserId>)
    ensures r == ResolveName(members, arg)
  {
    var i := 0;
    while i < |members|
      invariant i <= |members|
      invariant forall j :: 0 <= j < i ==> !Matches(members[j], arg)
    {
      var m := members[i];
      if m.nick.Some? && m.nick.value == arg {
        FirstMatchResolves(members, arg, i);
        return Some(m.id);
      }
      if m.name == arg {
        FirstMatchResolves(members, arg, i);
        return Some(m.id);
      }
      i := i + 1;
    }
    r := None;
  }

  /** The ids the arguments resolve to, in argument order; names that match no
      member are dropped. */
  function Resolved(args: seq<string>, members: seq<Member>): (r: seq<UserId>)
    ensures |r| <= |args|
  {
    FilterMap(args, (a: string) => ResolveName(members, a))
  }

  /** A user is among the resolved ones exactly when some argument resolves to them. */
  lemma ResolvedMembers(args: seq<string>, members: seq<Member>, u: UserId)
    ensures u in Resolved(args, members) <==> exists i :: 0 <= i < |args| && ResolveName(members, args[i]) == Some(u)
  {
    FilterMapMembers(args, (a: string) => ResolveName(members, a), u);
  }

  /** The outer loop of the name resolution. */
  method ResolveUsers(args: seq<string>, members: seq<Member>) returns (users: seq<UserId>)
    ensures users == Resolved(args, members)
  {
    users := [];
    var i := 0;
    while i < |args|
      invariant i <= |args|
      invariant users == Resolved(args[..i], members)
    {
      assert args[..i + 1][..i] == args[..i];
      var u := ResolveMember(members, args[i]);
      if u.Some? {
        users := users + [u.value];
      }
      i := i + 1;
    }
    assert args[..i] == args;
  }

  /** The Steam ids the guild's list holds for `user`, in list order. */
  function IdsOf(players: seq<Player>, user: UserId): seq<U64>
  {
    if players == [] then []
    else
      var last := players[|players| - 1];
      IdsOf(players[..|players| - 1], user) + (if last.discord == user then [last.steam] else [])
  }

  /** For each resolved user in turn, every Steam id the guild's list holds for them. */
  function CollectIds(users: seq<UserId>, players: seq<Player>): seq<U64>
  {
    ConcatMap(users, (u: UserId) => IdsOf(players, u))
  }

  /** `x` is collected for `user` exactly when the list links `user` to `x`. */
  lemma {:induction false} IdsOfMembers(players: seq<Player>, user: UserId, x: U64)
    ensures x in IdsOf(players, user) <==> Player(user, x) in players
    decreases |players|
  {
    if players != [] {
      var init := players[..|players| - 1];
      IdsOfMembers(init, user, x);
      assert players == init + [players[|players| - 1]];
    }
  }

  /** With at most one entry per user, each user contributes at most one id. */
  lemma {:induction false} IdsOfUnique(players: seq<Player>, user: UserId)
    requires UniqueUsers(players)
    ensures |IdsOf(players, user)| <= 1
    ensures |IdsOf(players, user)| == 1 <==> IndexOfUser(players, user).Some?
    decreases |players|
  {
    if players != [] {
      var init := players[..|players| - 1];
      var last := players[|players| - 1];
      assert UniqueUsers(init) by {
        forall i, j | 0 <= i < j < |init| ensures init[i].discord != init[j].discord {
          assert init[i] == players[i] && init[j] == players[j];
        }
      }
      IdsOfUnique(init, user);
      if last.discord == user {
        if IndexOfUser(init, user).Some? {
          assert false;
        }
      } else if IndexOfUser(players, user).Some? {
        var k := IndexOfUser(players, user).value;
        assert k < |init| && init[k] == players[k];
      }
    }
  }

  /** A collected id is one the list links to one of the users. */
  lemma CollectIdsMembers(users: seq<UserId>, players: seq<Player>, x: U64)
    ensures x in CollectIds(users, players) <==>
              exists i :: 0 <= i < |users| && Player(users[i], x) in players
  {
    ConcatMapMembers(users, (u: UserId) => IdsOf(players, u), x);
    forall i | 0 <= i < |users| ensures x in IdsOf(players, users[i]) <==> Player(users[i], x) in players {
      IdsOfMembers(players, users[i], x);
    }
  }

  /** With at most one entry per user there are never more ids than users. */
  lemma {:induction false} CollectIdsLength(users: seq<UserId>, players: seq<Player>)
    requires UniqueUsers(players)
    ensures |CollectIds(users, players)| <= |users|
    decreases |users|
  {
    if users != [] {
      CollectIdsLength(users[..|users| - 1], players);
      IdsOfUnique(players, users[|users| - 1]);
    }
  }

  /** The id collection of `find_common_games`: for each resolved user, every
      entry of the guild's list that belongs to them. */
  method CollectSteamIds(users: seq<UserId>, players: seq<Player>) returns (ids: seq<U64>)
    ensures ids == CollectIds(users, players)
  {
    ids := [];
    var i := 0;
    while i < |users|
      invariant i <= |users|
      invariant ids == CollectIds(users[..i], players)
    {
      ghost var before := ids;
      var j := 0;
      while j < |players|
        invariant j <= |players|
        invariant ids == before + IdsOf(players[..j], users[i])
      {
        assert players[..j + 1][..j] == players[..j];
        if players[j].discord == users[i] {
          ids := ids + [players[j].steam];
        }
        j := j + 1;
      }
      assert players[..j] == players;
      assert users[..i + 1][..i] == users[..i];
      i := i + 1;
    }
    assert users[..i] == users;
  }

  /** The fetch loop of `find_common_games`: the libraries the owned-games
      service returns, in id order; an id whose look-up fails is skipped. */
  method FetchLibraries(ids: seq<U64>, ownedGames: U64 -> Option<OwnedGames>) returns (libraries: seq<OwnedGames>)
    ensures libraries == FilterMap(ids, ownedGames)
  {
    libraries := [];
    var i := 0;
    while i < |ids|
      invariant i <= |ids|
      invariant libraries == FilterMap(ids[..i], ownedGames)
    {
      assert ids[..i + 1][..i] == ids[..i];
      var found := ownedGames(ids[i]);
      if found.Some? {
        libraries := libraries + [found.value];
      }
      i := i + 1;
    }
    assert ids[..i] == ids;
  }

  // ---------------------------------------------------------------------------
  // Result lines and message blocks

  const NAME_NOT_FOUND := "** NNF **"

  /** The name shown for a common game: the name the library carried, else the
      catalogue's name for its app id, else "** NNF **". */
  function GameName(game: OwnedGame, client: Steam.Client): string
  {
    match game.name
    case Some(n) => n
    case None => (
      match Steam.GameById(client, game.appid)
      case Ok(app) => app.name
      case Err(_) => NAME_NOT_FOUND)
  }

  /** A name the library carried is shown as it is, whatever the catalogue says. */
  lemma GameNameCached(game: OwnedGame, client: Steam.Client)
    requires game.name.Some?
    ensures GameName(game, client) == game.name.value
  {
  }

  /** With no cached name, a game the catalogue lists is shown under the name of
      the catalogue's first entry for its id, and any other game as "** NNF **". */
  lemma GameNameFallback(game: OwnedGame, client: Steam.Client)
    requires game.name.None?
    ensures (exists i :: 0 <= i < |client.apps.list| && client.apps.list[i].id == game.appid) ==>
              exists i :: 0 <= i < |client.apps.list| && client.apps.list[i] == Steam.App(game.appid, GameName(game, client))
                          && forall j :: 0 <= j < i ==> client.apps.list[j].id != game.appid
    ensures (forall i :: 0 <= i < |client.apps.list| ==> client.apps.list[i].id != game.appid) ==>
              GameName(game, client) == NAME_NOT_FOUND
  {
  }

  /** One result line: `"<name> - https://store.steampowered.com/app/<appid>/\r\n"`. */
  function GameLine(game: OwnedGame, client: Steam.Client): (r: string)
    ensures var name := GameName(game, client);
      && |r| == |name| + |Steam.Url(Steam.App(game.appid, ""))| + 5
      && r[..|name|] == name
      && r[|name|..|name| + 3] == " - "
      && r[|name| + 3..|r| - 2] == Steam.Url(Steam.App(game.appid, ""))
      && r[|r| - 2..] == "\r\n"
  {
    var name := GameName(game, client);
    var r := name + " - " + Steam.STORE_APP_PREFIX + Decimal(game.appid) + "/\r\n";
    assert r[|name| + 3..|r| - 2] == Steam.STORE_APP_PREFIX + Decimal(game.appid) + "/";
    r
  }

  /** The store address in a line reads back to the game's app id. */
  lemma GameLineAppId(game: OwnedGame, client: Steam.Client)
    ensures var line := GameLine(game, client);
      var n := |GameName(game, client)|;
      |line| >= n + 5 && Steam.AppIdOfUrl(line[n + 3..|line| - 2]) == Some(game.appid)
  {
    Steam.UrlRoundTrip(Steam.App(game.appid, ""), Steam.App(game.appid, ""));
  }

  /** The line loop of `find_common_games`: one line per common game, in order. */
  method GameLines(games: seq<OwnedGame>, client: Steam.Client) returns (lines: seq<string>)
    ensures |lines| == |games|
    ensures forall i :: 0 <= i < |games| ==> lines[i] == GameLine(games[i], client)
  {
    lines := [];
    var i := 0;
    while i < |games|
      invariant i <= |games| && |lines| == i
      invariant forall j :: 0 <= j < i ==> lines[j] == GameLine(games[j], client)
    {
      lines := lines + [GameLine(games[i], client)];
      i := i + 1;
    }
  }

  /** The most bytes a block may hold. */
  const BLOCK_LIMIT := 1950

  /** The state of the chunking loop: the blocks already sent and the one being filled. */
  datatype Packing = Packing(sent: seq<string>, block: string)

  /** One step of the chunking loop: a line that keeps the block within the limit
      is appended to it; any other line sends the block, starts an empty one and
      is itself dropped. */
  function PackStep(p: Packing, line: string): Packing
  {
    if Utf8Len(p.block) + Utf8Len(line) <= BLOCK_LIMIT then Packing(p.sent, p.block + line)
    else Packing(p.sent + [p.block], "")
  }

  function PackAll(lines: seq<string>): Packing
  {
    if lines == [] then Packing([], "")
    else PackStep(PackAll(lines[..|lines| - 1]), lines[|lines| - 1])
  }

  /** The blocks sent: those the loop flushed, then the last one if it is not empty. */
  function Blocks(lines: seq<string>): seq<string>
  {
    var p := PackAll(lines);
    if Utf8Len(p.block) != 0 then p.sent + [p.block] else p.sent
  }

  /** The chunking loop keeps every block within the limit. */
  lemma {:induction false} PackAllBounded(lines: seq<string>)
    ensures Utf8Len(PackAll(lines).block) <= BLOCK_LIMIT
    ensures forall i :: 0 <= i < |PackAll(lines).sent| ==> Utf8Len(PackAll(lines).sent[i]) <= BLOCK_LIMIT
    decreases |lines|
  {
    if lines != [] {
      var p := PackAll(lines[..|lines| - 1]);
      PackAllBounded(lines[..|lines| - 1]);
      Utf8LenAppend(p.block, lines[|lines| - 1]);
    }
  }

  /** No block sent is longer than 1950 bytes. */
  lemma BlocksBounded(lines: seq<string>)
    ensures forall i :: 0 <= i < |Blocks(lines)| ==> Utf8Len(Blocks(lines)[i]) <= BLOCK_LIMIT
  {
    PackAllBounded(lines);
  }

  /** Lines joined in order, as `push_str` leaves them in one block. */
  function Concat(lines: seq<string>): string
  {
    ConcatMap(lines, (line: string) => line)
  }

  lemma ConcatSnoc(lines: seq<string>, line: string)
    ensures Concat(lines + [line]) == Concat(lines) + line
  {
    assert (lines + [line])[..|lines|] == lines;
  }

  /** When all the lines fit in one block together nothing is dropped: they are
      sent as one block (or not at all when they are all empty). */
  lemma {:induction false} PackAllFits(lines: seq<string>)
    requires Utf8Len(Concat(lines)) <= BLOCK_LIMIT
    ensures PackAll(lines) == Packing([], Concat(lines))
    decreases |lines|
  {
    if lines != [] {
      var init := lines[..|lines| - 1];
      assert lines == init + [lines[|lines| - 1]];
      ConcatSnoc(init, lines[|lines| - 1]);
      Utf8LenAppend(Concat(init), lines[|lines| - 1]);
      PackAllFits(init);
    }
  }

  lemma BlocksWhenAllFit(lines: seq<string>)
    requires Utf8Len(Concat(lines)) <= BLOCK_LIMIT
    ensures Blocks(lines) == if Concat(lines) == "" then [] else [Concat(lines)]
  {
    PackAllFits(lines);
  }

  /** The positions of the lines the chunking loop drops, in order. */
  function Dropped(lines: seq<string>): (r: seq<nat>)
    ensures Increasing(r, |lines|)
  {
    if lines == [] then []
    else
      var n := |lines| - 1;
      if Utf8Len(PackAll(lines[..n]).block) + Utf8Len(lines[n]) <= BLOCK_LIMIT then Dropped(lines[..n])
      else Dropped(lines[..n]) + [n]
  }

  /** A line is dropped exactly when, at its turn, it would take the block being
      filled past the limit. */
  lemma {:induction false} DroppedMembers(lines: seq<string>, i: nat)
    requires i < |lines|
    ensures i in Dropped(lines) <==> Utf8Len(PackAll(lines[..i]).block) + Utf8Len(lines[i]) > BLOCK_LIMIT
    decreases |lines|
  {
    var n := |lines| - 1;
    var init := lines[..n];
    var d0 := Dropped(init);
    var over := Utf8Len(PackAll(init).block) + Utf8Len(lines[n]) > BLOCK_LIMIT;
    assert Dropped(lines) == if over then d0 + [n] else d0;
    if i < n {
      DroppedMembers(init, i);
      assert init[..i] == lines[..i] && init[i] == lines[i];
      assert i in Dropped(lines) <==> i in d0;
    } else {
      assert n !in d0;
      assert init == lines[..i];
    }
  }

  /** Strictly increasing positions below `n`. */
  predicate Increasing(positions: seq<nat>, n: nat)
  {
    && (forall k :: 0 <= k < |positions| ==> positions[k] < n)
    && (forall i, j :: 0 <= i < j < |positions| ==> positions[i] < positions[j])
  }

  /** Where run `k` of kept lines starts: at the first line, or just after the
      `k`-th dropped line. */
  function RunStart(dropped: seq<nat>, k: nat): nat
    requires k <= |dropped|
  {
    if k == 0 then 0 else dropped[k - 1] + 1
  }

  /** Where run `k` ends: at the `k`-th dropped line, or at the end of the lines. */
  function RunEnd(dropped: seq<nat>, n: nat, k: nat): nat
    requires k <= |dropped|
  {
    if k < |dropped| then dropped[k] else n
  }

  /** `sent` and `block` are the runs of `lines` that `dropped` delimits: run `k`
      ends at the `k`-th dropped line, the next starts just after it, and the
      block being filled holds the run after the last dropped line. */
  predicate IsRuns(lines: seq<string>, dropped: seq<nat>, sent: seq<string>, block: string)
  {
    && |sent| == |dropped|
    && Increasing(dropped, |lines|)
    && (forall k {:trigger sent[k]} :: 0 <= k < |dropped| ==> sent[k] == Concat(lines[RunStart(dropped, k)..dropped[k]]))
    && block == Concat(lines[RunStart(dropped, |dropped|)..])
  }

  /** Appending a line leaves every run that ends before it untouched. */
  lemma RunUnchanged(init: seq<string>, line: string, dropped: seq<nat>, k: nat)
    requires Increasing(dropped, |init|) && k < |dropped|
    ensures RunStart(dropped, k) <= dropped[k] <= |init|
    ensures (init + [line])[RunStart(dropped, k)..dropped[k]] == init[RunStart(dropped, k)..dropped[k]]
  {
    RunBounds(dropped, |init|, k);
  }

  /** A position past every dropped one keeps the positions increasing. */
  lemma IncreasingSnoc(dropped: seq<nat>, n: nat)
    requires Increasing(dropped, n)
    ensures Increasing(dropped + [n], n + 1)
  {
    var d := dropped + [n];
    forall i, j | 0 <= i < j < |d| ensures d[i] < d[j] {
      assert d[i] == dropped[i];
    }
  }

  /** A line that fits extends the last run. */
  lemma RunsKeep(init: seq<string>, line: string, dropped: seq<nat>, sent: seq<string>, block: string)
    requires IsRuns(init, dropped, sent, block)
    ensures IsRuns(init + [line], dropped, sent, block + line)
  {
    var lines := init + [line];
    var s := RunStart(dropped, |dropped|);
    forall k | 0 <= k < |dropped| ensures sent[k] == Concat(lines[RunStart(dropped, k)..dropped[k]]) {
      RunUnchanged(init, line, dropped, k);
    }
    assert lines[s..] == init[s..] + [line];
    ConcatSnoc(init[s..], line);
  }

  /** A line that does not fit closes the last run and is itself dropped. */
  lemma RunsDrop(init: seq<string>, line: string, dropped: seq<nat>, sent: seq<string>, block: string)
    requires IsRuns(init, dropped, sent, block)
    ensures IsRuns(init + [line], dropped + [|init|], sent + [block], "")
  {
    var lines := init + [line];
    var n := |init|;
    var d := dropped + [n];
    var s := RunStart(dropped, |dropped|);
    IncreasingSnoc(dropped, n);
    forall k | 0 <= k < |d|
      ensures (sent + [block])[k] == Concat(lines[RunStart(d, k)..d[k]])
    {
      if k < |dropped| {
        assert RunStart(d, k) == RunStart(dropped, k) && d[k] == dropped[k];
        RunUnchanged(init, line, dropped, k);
      } else {
        assert RunStart(d, k) == s;
        assert lines[s..n] == init[s..];
      }
    }
    assert lines[n + 1..] == [];
  }

  /** The blocks the loop has flushed are the runs of kept lines between
      consecutive dropped lines, in order, and the block being filled is the run
      after the last dropped line. */
  lemma {:induction false} PackAllRuns(lines: seq<string>)
    ensures IsRuns(lines, Dropped(lines), PackAll(lines).sent, PackAll(lines).block)
    decreases |lines|
  {
    if lines == [] {
      assert lines[0..] == [];
    } else {
      var n := |lines| - 1;
      var init := lines[..n];
      assert lines == init + [lines[n]];
      PackAllRuns(init);
      var p0 := PackAll(init);
      if Utf8Len(p0.block) + Utf8Len(lines[n]) <= BLOCK_LIMIT {
        RunsKeep(init, lines[n], Dropped(init), p0.sent, p0.block);
      } else {
        RunsDrop(init, lines[n], Dropped(init), p0.sent, p0.block);
      }
    }
  }

  /** Each run lies within the lines, and starts no later than it ends. */
  lemma RunBounds(dropped: seq<nat>, n: nat, k: nat)
    requires Increasing(dropped, n) && k <= |dropped|
    ensures RunStart(dropped, k) <= RunEnd(dropped, n, k) <= n
  {
    if 0 < k < |dropped| {
      assert dropped[k - 1] < dropped[k];
    }
  }

  /** Sending the flushed blocks, then possibly the block being filled, sends
      the runs in order. */
  lemma RunsInOrder(lines: seq<string>, dropped: seq<nat>, sent: seq<string>, block: string,
                    blocks: seq<string>, k: nat)
    requires IsRuns(lines, dropped, sent, block)
    requires blocks == sent + [block] || blocks == sent
    requires k < |blocks|
    ensures k <= |dropped|
    ensures RunStart(dropped, k) <= RunEnd(dropped, |lines|, k) <= |lines|
            && blocks[k] == Concat(lines[RunStart(dropped, k)..RunEnd(dropped, |lines|, k)])
  {
    RunBounds(dropped, |lines|, k);
    if k < |dropped| {
      assert blocks[k] == sent[k];
    } else {
      assert blocks[k] == block;
      assert lines[RunStart(dropped, k)..|lines|] == lines[RunStart(dropped, k)..];
    }
  }

  /** Block `k` joins the lines of run `k`. */
  lemma BlockIsRun(lines: seq<string>, k: nat)
    requires k < |Blocks(lines)|
    ensures k <= |Dropped(lines)|
    ensures var d := Dropped(lines);
      RunStart(d, k) <= RunEnd(d, |lines|, k) <= |lines|
      && Blocks(lines)[k] == Concat(lines[RunStart(d, k)..RunEnd(d, |lines|, k)])
  {
    var p := PackAll(lines);
    PackAllRuns(lines);
    RunsInOrder(lines, Dropped(lines), p.sent, p.block, Blocks(lines), k);
  }

  /** Every block sent joins a run of consecutive lines in order. Block `k` ends
      at the `k`-th dropped line and block `k + 1` starts just after it, so
      exactly one line separates consecutive blocks. */
  lemma BlocksAreRuns(lines: seq<string>)
    ensures var d := Dropped(lines);
      && Increasing(d, |lines|)
      && |d| <= |Blocks(lines)| <= |d| + 1
      && (|Blocks(lines)| == |d| + 1 <==> Utf8Len(Concat(lines[RunStart(d, |d|)..])) != 0)
      && forall k {:trigger Blocks(lines)[k]} :: 0 <= k < |Blocks(lines)| ==>
           Blocks(lines)[k] == Concat(lines[RunStart(d, k)..RunEnd(d, |lines|, k)])
  {
    PackAllRuns(lines);
    forall k | 0 <= k < |Blocks(lines)|
      ensures Blocks(lines)[k] == Concat(lines[RunStart(Dropped(lines), k)..RunEnd(Dropped(lines), |lines|, k)])
    {
      BlockIsRun(lines, k);
    }
  }

  /** The line that overflows a block is lost: two lines of 1000 bytes give one
      block holding only the first. */
  lemma OverflowingLineIsDropped()
    ensures var a := seq(1000, _ => 'a');
      var b := seq(1000, _ => 'b');
      Blocks([a, b]) == [a]
  {
    var a := seq(1000, _ => 'a');
    var b := seq(1000, _ => 'b');
    Utf8LenAscii(a);
    Utf8LenAscii(b);
    assert [a, b][..1] == [a];
    assert [a][..0] == [];
    assert "" + a == a;
    assert PackAll([a]) == Packing([], a);
    assert PackAll([a, b]) == Packing([a], "");
  }

  /** The chunking loop of `find_common_games`: it returns the blocks it sends, in
      order; the message for block `i` is headed "Common games i". */
  method PackBlocks(lines: seq<string>) returns (blocks: seq<string>)
    ensures blocks == Blocks(lines)
  {
    var sent: seq<string> := [];
    var block := "";
    var i := 0;
    while i < |lines|
      invariant i <= |lines|
      invariant PackAll(lines[..i]) == Packing(sent, block)
    {
      assert lines[..i + 1][..i] == lines[..i];
      if Utf8Len(block) + Utf8Len(lines[i]) <= BLOCK_LIMIT {
        block := block + lines[i];
      } else {
        sent := sent + [block];
        block := "";
      }
      i := i + 1;
    }
    assert lines[..i] == lines;
    blocks := if Utf8Len(block) != 0 then sent + [block] else sent;
  }

  // ---------------------------------------------------------------------------
  // `find_common_games`

  /** What `find_common_games` reports. */
  datatype CommonReport =
    | NotFromGuild         // the message did not come from a guild channel
    | MembersUnavailable   // the guild's member list could not be fetched
    | TooFewNames          // fewer than two names resolved to members
    | NoGuildPlayers       // the guild has no player list
    | TooFewIds            // fewer than two Steam ids were collected
    | NoLibraries          // no library could be fetched
    | NoSharedGames        // the intersection is empty
    | Listed(blocks: seq<string>)

  /** One line per common game, in the intersection's order. */
  function Lines(games: seq<OwnedGame>, client: Steam.Client): (r: seq<string>)
    ensures |r| == |games|
  {
    seq(|games|, i requires 0 <= i < |games| => GameLine(games[i], client))
  }

  /** The whole of `find_common_games`, each abort in the order the command checks it. */
  function CommonGamesReport(gid: Option<GuildId>, args: seq<string>, members: Option<seq<Member>>,
                             lists: map<GuildId, seq<Player>>, ownedGames: U64 -> Option<OwnedGames>,
                             client: Steam.Client): CommonReport
  {
    if gid.None? then NotFromGuild
    else if members.None? then MembersUnavailable
    else
      var users := Resolved(args, members.value);
      if |users| < 2 then TooFewNames
      else if gid.value !in lists then NoGuildPlayers
      else
        var ids := CollectIds(users, lists[gid.value]);
        if |ids| < 2 then TooFewIds
        else
          match CommonAcross(FilterMap(ids, ownedGames))
          case None => NoLibraries
          case Some(common) =>
            if common.gameCount == 0 || common.games == [] then NoSharedGames
            else Listed(Blocks(Lines(common.games, client)))
  }

  /** A listing needs at least two resolved names and at least two collected
      ids, repetitions counted, from a guild with a player list; every game
      listed is one that every fetched library holds, in blocks of at most 1950
      bytes. */
  lemma ListedReport(gid: Option<GuildId>, args: seq<string>, members: Option<seq<Member>>,
                     lists: map<GuildId, seq<Player>>, ownedGames: U64 -> Option<OwnedGames>,
                     client: Steam.Client, g: OwnedGame)
    requires CommonGamesReport(gid, args, members, lists, ownedGames, client).Listed?
    ensures gid.Some? && members.Some? && gid.value in lists
    ensures var users := Resolved(args, members.value);
      var ids := CollectIds(users, lists[gid.value]);
      var libraries := FilterMap(ids, ownedGames);
      && |users| >= 2 && |ids| >= 2 && libraries != []
      && CommonAcross(libraries).value.games != []
      && (g in CommonAcross(libraries).value.games ==> AllHaveApp(libraries, g.appid))
    ensures var blocks := CommonGamesReport(gid, args, members, lists, ownedGames, client).blocks;
      forall i :: 0 <= i < |blocks| ==> Utf8Len(blocks[i]) <= BLOCK_LIMIT
  {
    var users := Resolved(args, members.value);
    var ids := CollectIds(users, lists[gid.value]);
    var libraries := FilterMap(ids, ownedGames);
    CommonAcrossMembers(libraries, g);
    BlocksBounded(Lines(CommonAcross(libraries).value.games, client));
  }

  /** Both counts include repetitions: one player named twice resolves twice,
      yields their id twice and has their own library intersected with itself,
      so their whole library is listed as the common games. */
  lemma OnePlayerNamedTwiceIsListed(g: OwnedGame, client: Steam.Client)
    ensures var library := OwnedGames(1, [g]);
      var ownedGames := (id: U64) => if id == 42 then Some(library) else None;
      var members := [Member(7, "alice", None)];
      var lists := map[1 := [Player(7, 42)]];
      && Resolved(["alice", "alice"], members) == [7, 7]
      && CollectIds([7, 7], lists[1]) == [42, 42]
      && CommonAcross(FilterMap(CollectIds([7, 7], lists[1]), ownedGames)) == Some(library)
      && CommonGamesReport(Some(1), ["alice", "alice"], Some(members), lists, ownedGames, client).Listed?
  {
    var library := OwnedGames(1, [g]);
    var lists := map[1 := [Player(7, 42)]];
    NameTwiceResolvesTwice();
    IdCollectedTwice();
    assert lists[1] == [Player(7, 42)];
    OwnLibraryIsCommon(library);
  }

  /** The name matches the only member, so both copies resolve to it. */
  lemma NameTwiceResolvesTwice()
    ensures Resolved(["alice", "alice"], [Member(7, "alice", None)]) == [7, 7]
  {
    var members := [Member(7, "alice", None)];
    var resolve := (a: string) => ResolveName(members, a);
    assert resolve("alice") == Some(7) by {
      assert Matches(members[0], "alice");
    }
    assert ["alice", "alice"][..1] == ["alice"];
    assert FilterMap(["alice"], resolve) == [7];
  }

  /** The user's one entry is collected once per time the user appears. */
  lemma IdCollectedTwice()
    ensures CollectIds([7, 7], [Player(7, 42)]) == [42, 42]
  {
    var players := [Player(7, 42)];
    assert IdsOf(players, 7) == [42] by {
      assert players[..0] == [];
    }
    var ids := (u: UserId) => IdsOf(players, u);
    var once: seq<UserId> := [7];
    var twice: seq<UserId> := [7, 7];
    assert ConcatMap(twice, ids) == ConcatMap(once, ids) + [42] by {
      assert twice[..1] == once;
    }
    assert ConcatMap(once, ids) == [42] by {
      assert once[..0] == [];
    }
  }

  /** A library intersected with itself is that library. */
  lemma OwnLibraryIsCommon(library: OwnedGames)
    requires |library.games| == 1 && library.gameCount == 1
    ensures var ownedGames := (id: U64) => if id == 42 then Some(library) else None;
      var two: seq<U64> := [42, 42];
      CommonAcross(FilterMap(two, ownedGames)) == Some(library)
  {
    LibraryFetchedTwice(library);
    SelfCommon(library);
  }

  /** The id collected twice fetches the library twice. */
  lemma LibraryFetchedTwice(library: OwnedGames)
    ensures var ownedGames := (id: U64) => if id == 42 then Some(library) else None;
      var two: seq<U64> := [42, 42];
      FilterMap(two, ownedGames) == [library, library]
  {
    var ownedGames := (id: U64) => if id == 42 then Some(library) else None;
    var one: seq<U64> := [42];
    var two: seq<U64> := [42, 42];
    assert two[..1] == one;
    assert FilterMap(one, ownedGames) == [library];
  }

  /** Folding a one-game library with itself keeps it whole. */
  lemma SelfCommon(library: OwnedGames)
    requires |library.games| == 1 && library.gameCount == 1
    ensures CommonAcross([library, library]) == Some(library)
  {
    var g := library.games[0];
    assert library.games == [g];
    assert HasApp([g], g.appid) by {
      assert [g][0].appid == g.appid;
    }
    assert Common([g], [g]) == [g] by {
      assert [g][..0] == [];
    }
    assert [library, library][..1] == [library];
    assert FoldCommon(library, [library]) == library by {
      assert [library][..0] == [];
    }
  }
}
