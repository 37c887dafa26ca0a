/**
 * Game suggestions (src/commands/suggestions.rs). Each guild keeps a list of
 * suggestions, either a Steam catalogue app or a free-text title with an optional
 * genre and url. Adding rejects duplicates; removing looks up the first entry
 * whose title matches ignoring ASCII case, and only its owner may remove it.
 *
 * Each add or remove is one sequential step on the store.
 */
module Suggestions {
  import opened Wrappers
  import opened Text
  import opened Seqs
  import opened Steam
  import opened Discord

  datatype TextSuggestion = TextSuggestion(title: string, genre: Option<string>, url: Option<string>)

  datatype Suggestion =
    | SteamApp(owner: UserId, app: App)
    | PlainText(owner: UserId, text: TextSuggestion)

  /** `Suggestion::title`: the app's name or the free-text title. */
  function Title(s: Suggestion): (r: string)
    ensures s.SteamApp? ==> r == s.app.name
    ensures s.PlainText? ==> r == s.text.title
  {
    match s
    case SteamApp(_, app) => app.name
    case PlainText(_, text) => text.title
  }

  /** `Suggestion::user`: whoever suggested it, for either variant. */
  function User(s: Suggestion): (r: UserId)
    ensures r == s.owner
  {
    match s
    case SteamApp(user, _) => user
    case PlainText(user, _) => user
  }

  /** `PartialEq for Suggestion`: two Steam apps compare by id, anything else
      compares titles exactly (case-sensitive). Genre, url and owner never take part. */
  function Eq(a: Suggestion, b: Suggestion): (r: bool)
    ensures a.SteamApp? && b.SteamApp? ==> (r <==> a.app.id == b.app.id)
    ensures !(a.SteamApp? && b.SteamApp?) ==> (r <==> Title(a) == Title(b))
  {
    match a
    case SteamApp(_, sa) => (
      match b
      case SteamApp(_, oa) => sa.id == oa.id
      case PlainText(_, ot) => sa.name == ot.title)
    case PlainText(_, st) => (
      match b
      case SteamApp(_, oa) => st.title == oa.name
      case PlainText(_, ot) => st.title == ot.title)
  }

  /** `==` on suggestions is reflexive and symmetric. */
  lemma EqReflexiveSymmetric(a: Suggestion, b: Suggestion)
    ensures Eq(a, a)
    ensures Eq(a, b) <==> Eq(b, a)
  {
  }

  /** ... but not transitive: a text suggestion can equal two Steam apps that
      share its name but differ from each other by id. */
  lemma EqNotTransitive()
    ensures exists a, b, c :: Eq(a, b) && Eq(b, c) && !Eq(a, c)
  {
    var a := SteamApp(1, App(10, "Portal"));
    var b := PlainText(2, TextSuggestion("Portal", None, None));
    var c := SteamApp(3, App(20, "Portal"));
    assert Eq(a, b) && Eq(b, c) && !Eq(a, c);
  }

  /** `Display for TextSuggestion`: "Title: t", then " | Genre: g" when there is a
      genre, then " | Url: u" when there is a url. */
  function DisplayText(t: TextSuggestion): (r: string)
    ensures |r| == 7 + |t.title| + (if t.genre.Some? then 10 + |t.genre.value| else 0)
                                 + (if t.url.Some? then 8 + |t.url.value| else 0)
    ensures r[..7 + |t.title|] == "Title: " + t.title
    ensures t.genre.Some? ==> r[7 + |t.title|..17 + |t.title| + |t.genre.value|] == " | Genre: " + t.genre.value
    ensures t.url.Some? ==> r[|r| - 8 - |t.url.value|..] == " | Url: " + t.url.value
    ensures t.genre.None? && t.url.None? ==> r == "Title: " + t.title
  {
    var head := "Title: " + t.title;
    var withGenre := if t.genre.Some? then head + " | Genre: " + t.genre.value else head;
    var r := if t.url.Some? then withGenre + " | Url: " + t.url.value else withGenre;
    assert r[..|head|] == head;
    assert t.genre.Some? ==> r[|head|..|head| + 10 + |t.genre.value|] == " | Genre: " + t.genre.value;
    r
  }

  /** The line `list_suggestions` writes for a text entry. Its separators differ
      from `Display for TextSuggestion`: " Genre: " and a bare "Url: ". */
  function TextEntry(t: TextSuggestion): (r: string)
    ensures |r| == 9 + |t.title| + (if t.genre.Some? then 8 + |t.genre.value| else 0)
                                 + (if t.url.Some? then 5 + |t.url.value| else 0)
    ensures r[..7 + |t.title|] == "Title: " + t.title
    ensures t.genre.Some? ==> r[7 + |t.title|..15 + |t.title| + |t.genre.value|] == " Genre: " + t.genre.value
    ensures t.url.Some? ==> r[|r| - 7 - |t.url.value|..|r| - 2] == "Url: " + t.url.value
    ensures r[|r| - 2..] == "\r\n"
  {
    var head := "Title: " + t.title;
    var genre := if t.genre.Some? then " Genre: " + t.genre.value else "";
    var url := if t.url.Some? then "Url: " + t.url.value else "";
    Pieces(head, genre, url, "\r\n");
    head + genre + url + "\r\n"
  }

  /** The line `list_suggestions` writes for a Steam entry: its name, " - " and
      its store address. */
  function SteamEntry(app: App): (r: string)
    ensures |r| == 12 + |app.name| + |Url(app)|
    ensures r[..7 + |app.name|] == "Steam: " + app.name
    ensures r[7 + |app.name|..10 + |app.name|] == " - "
    ensures r[|r| - 2 - |Url(app)|..|r| - 2] == Url(app)
    ensures r[|r| - 2..] == "\r\n"
  {
    var head := "Steam: " + app.name;
    Pieces(head, " - ", Url(app), "\r\n");
    head + " - " + Url(app) + "\r\n"
  }

  /** The line `list_suggestions` writes for one entry: "Title: " or "Steam: ",
      the entry's title, the variant's fields, and "\r\n". */
  function ListEntry(s: Suggestion): (r: string)
    ensures |r| >= 9 + |Title(s)| && r[|r| - 2..] == "\r\n"
    ensures r[..7] == (if s.PlainText? then "Title: " else "Steam: ") && r[7..7 + |Title(s)|] == Title(s)
    ensures s.PlainText? ==> r == TextEntry(s.text)
    ensures s.SteamApp? ==> r == SteamEntry(s.app)
  {
    match s
    case PlainText(_, t) =>
      var r := TextEntry(t);
      assert r[..7] == r[..7 + |t.title|][..7];
      assert r[7..7 + |t.title|] == r[..7 + |t.title|][7..];
      r
    case SteamApp(_, app) =>
      var r := SteamEntry(app);
      assert r[..7] == r[..7 + |app.name|][..7];
      assert r[7..7 + |app.name|] == r[..7 + |app.name|][7..];
      r
  }

  /** The block `list_suggestions` shows: one line per entry, in list order. */
  function Listing(list: seq<Suggestion>): string
  {
    ConcatMap(list, ListEntry)
  }

  /** The listing of a concatenation is the concatenation of the listings, so an
      append adds exactly one line at the end. */
  lemma ListingAppend(a: seq<Suggestion>, b: seq<Suggestion>)
    ensures Listing(a + b) == Listing(a) + Listing(b)
  {
    ConcatMapAppend(a, b, ListEntry);
  }

  /** Every entry contributes at least one line, so the listing of a non-empty
      list is never empty. */
  lemma {:induction false} ListingLength(list: seq<Suggestion>)
    ensures |Listing(list)| >= 9 * |list|
    decreases |list|
  {
    if list != [] {
      ListingLength(list[..|list| - 1]);
    }
  }

  // ---------------------------------------------------------------------------
  // Suggestion kinds

  datatype Kind = Plain | SteamKind

  /** The keyword each kind is selected by. */
  function Keyword(k: Kind): string
  {
    match k
    case Plain => "plain"
    case SteamKind => "steam"
  }

  /** The type-keyword dispatch of `add_suggestion` and `remove_suggestion`: the
      first argument, ASCII-lowercased and then trimmed, must be exactly one of
      the two keywords. */
  function ParseKind(word: string): (r: Option<Kind>)
    ensures r.Some? ==> Trim(AsciiLower(word)) == Keyword(r.value)
    ensures r.None? <==> Trim(AsciiLower(word)) != "plain" && Trim(AsciiLower(word)) != "steam"
  {
    var w := Trim(AsciiLower(word));
    if w == "plain" then Some(Plain) else if w == "steam" then Some(SteamKind) else None
  }

  /** The keyword is found whatever its ASCII case and surrounding whitespace. */
  lemma ParseKindOfKeyword(k: Kind, before: string, word: string, after: string)
    requires AllWhitespace(before) && AllWhitespace(after)
    requires AsciiLower(word) == Keyword(k)
    ensures ParseKind(before + word + after) == Some(k)
  {
    AsciiLowerAppend(before, word);
    AsciiLowerAppend(before + word, after);
    WhitespaceIsLower(before);
    WhitespaceIsLower(after);
    assert AsciiLower(before + word + after) == before + Keyword(k) + after;
    TrimSurrounded(before, Keyword(k), after);
  }

  lemma WhitespaceIsLower(s: string)
    requires AllWhitespace(s)
    ensures AsciiLower(s) == s
  {
    assert forall i :: 0 <= i < |s| ==> !('A' <= s[i] <= 'Z');
  }

  /** Whitespace around a string with no whitespace at its ends is exactly what
      `trim` removes. */
  lemma {:induction false} TrimSurrounded(before: string, core: string, after: string)
    requires AllWhitespace(before) && AllWhitespace(after)
    requires core != [] && !IsWhitespace(core[0]) && !IsWhitespace(core[|core| - 1])
    ensures Trim(before + core + after) == core
  {
    var rest := core + after;
    assert before + core + after == before + rest;
    assert rest[0] == core[0];
    TrimStartSurrounded(before, rest);
    TrimEndSurrounded(core, after);
    assert Trim(before + rest) == TrimEnd(rest);
  }

  lemma {:induction false} TrimStartSurrounded(ws: string, rest: string)
    requires AllWhitespace(ws) && rest != [] && !IsWhitespace(rest[0])
    ensures TrimStart(ws + rest) == rest
    decreases |ws|
  {
    if ws != [] {
      assert (ws + rest)[0] == ws[0] && IsWhitespace(ws[0]);
      assert (ws + rest)[1..] == ws[1..] + rest;
      TrimStartSurrounded(ws[1..], rest);
    } else {
      assert ws + rest == rest;
    }
  }

  lemma {:induction false} TrimEndSurrounded(rest: string, ws: string)
    requires AllWhitespace(ws) && rest != [] && !IsWhitespace(rest[|rest| - 1])
    ensures TrimEnd(rest + ws) == rest
    decreases |ws|
  {
    if ws != [] {
      assert (rest + ws)[..|rest + ws| - 1] == rest + ws[..|ws| - 1];
      TrimEndSurrounded(rest, ws[..|ws| - 1]);
    } else {
      assert rest + ws == rest;
    }
  }

  // ---------------------------------------------------------------------------
  // Looking things up in one guild's list

  /** A suggestion's title, ASCII-lowercased: the key of duplicate checks on text
      and of every removal. */
  function LowerTitle(s: Suggestion): string
  {
    AsciiLower(Title(s))
  }

  /** The duplicate check of `add_text_suggestion`: some entry's lowercased title
      equals the lowercased candidate title. */
  function TitleTaken(list: seq<Suggestion>, title: string): (r: bool)
    ensures r <==> exists i :: 0 <= i < |list| && LowerTitle(list[i]) == AsciiLower(title)
  {
    Any(list, (s: Suggestion) => LowerTitle(s) == AsciiLower(title))
  }

  /** The duplicate check of `add_steam_suggestion`: some entry is `==` to the
      candidate. */
  function ContainsEqual(list: seq<Suggestion>, candidate: Suggestion): (r: bool)
    ensures r <==> exists i :: 0 <= i < |list| && Eq(list[i], candidate)
  {
    Any(list, (s: Suggestion) => Eq(s, candidate))
  }

  /** The `position` search of the remove commands: the first index whose
      lowercased title equals the lowercased requested title. */
  function IndexOfTitle(list: seq<Suggestion>, title: string): (r: Option<nat>)
    ensures r.Some? ==> r.value < |list| && LowerTitle(list[r.value]) == AsciiLower(title)
                        && forall j :: 0 <= j < r.value ==> LowerTitle(list[j]) != AsciiLower(title)
    ensures r.None? <==> !TitleTaken(list, title)
  {
    Position(list, (s: Suggestion) => LowerTitle(s) == AsciiLower(title))
  }

  /** `Vec::swap_remove`: the element at `i` is removed and the last element takes
      its place; every other position keeps its element. */
  function SwapRemove<T>(s: seq<T>, i: nat): (r: seq<T>)
    requires i < |s|
    ensures |r| == |s| - 1
    ensures i < |r| ==> r[i] == s[|s| - 1]
    ensures forall j :: 0 <= j < |r| && j != i ==> r[j] == s[j]
    ensures multiset(r) + multiset{s[i]} == multiset(s)
  {
    var r := s[i := s[|s| - 1]][..|s| - 1];
    SwapRemoveMultiset(s, i);
    r
  }

  lemma SwapRemoveMultiset<T>(s: seq<T>, i: nat)
    requires i < |s|
    ensures multiset(s[i := s[|s| - 1]][..|s| - 1]) + multiset{s[i]} == multiset(s)
  {
    var last := |s| - 1;
    var r := s[i := s[last]][..last];
    if i == last {
      assert r == s[..last];
      assert s == s[..last] + [s[last]];
    } else {
      var a, b := s[..i], s[i + 1..last];
      assert s == a + ([s[i]] + (b + [s[last]]));
      assert r == a + ([s[last]] + b);
      calc {
        multiset(s);
        multiset(a) + (multiset{s[i]} + (multiset(b) + multiset{s[last]}));
        multiset(a) + (multiset{s[last]} + multiset(b)) + multiset{s[i]};
        multiset(r) + multiset{s[i]};
      }
    }
  }

  // ---------------------------------------------------------------------------
  // The invariant every store operation keeps

  /** No two entries are `==`. */
  predicate NoEqualPair(list: seq<Suggestion>)
  {
    forall i, j :: 0 <= i < |list| && 0 <= j < |list| && i != j ==> !Eq(list[i], list[j])
  }

  /** No two text entries have the same title ignoring ASCII case. */
  predicate TextTitlesDistinct(list: seq<Suggestion>)
  {
    forall i, j :: (0 <= i < |list| && 0 <= j < |list| && i != j
                    && list[i].PlainText? && list[j].PlainText?) ==> LowerTitle(list[i]) != LowerTitle(list[j])
  }

  /** Every text title is stored trimmed. */
  predicate TextTitlesTrimmed(list: seq<Suggestion>)
  {
    forall i :: 0 <= i < |list| && list[i].PlainText? ==> Trim(list[i].text.title) == list[i].text.title
  }

  predicate WellFormed(list: seq<Suggestion>)
  {
    NoEqualPair(list) && TextTitlesDistinct(list) && TextTitlesTrimmed(list)
  }

  /** Equal titles are equal ignoring case, so the text duplicate check rejects
      every candidate the `==` check would. */
  lemma EqImpliesSameLowerTitle(a: Suggestion, b: Suggestion)
    requires a.PlainText? || b.PlainText?
    requires Eq(a, b)
    ensures LowerTitle(a) == LowerTitle(b)
  {
  }

  /** Appending a text suggestion that passed the duplicate check of
      `add_text_suggestion` keeps the list well formed. */
  lemma AppendTextKeepsWellFormed(list: seq<Suggestion>, s: Suggestion)
    requires WellFormed(list)
    requires s.PlainText? && Trim(s.text.title) == s.text.title
    requires !TitleTaken(list, s.text.title)
    ensures WellFormed(list + [s])
  {
    AppendTextKeepsNoEqualPair(list, s);
    AppendTextKeepsTitlesDistinct(list, s);
    AppendKeepsTitlesTrimmed(list, s);
  }

  lemma AppendTextKeepsNoEqualPair(list: seq<Suggestion>, s: Suggestion)
    requires NoEqualPair(list)
    requires s.PlainText? && !TitleTaken(list, s.text.title)
    ensures NoEqualPair(list + [s])
  {
    var r := list + [s];
    forall i, j | 0 <= i < |r| && 0 <= j < |r| && i != j ensures !Eq(r[i], r[j]) {
      if i == |list| || j == |list| {
        var k := if i == |list| then j else i;
        assert LowerTitle(r[k]) != LowerTitle(s);
        if Eq(r[i], r[j]) { EqImpliesSameLowerTitle(r[i], r[j]); }
      }
    }
  }

  lemma AppendTextKeepsTitlesDistinct(list: seq<Suggestion>, s: Suggestion)
    requires TextTitlesDistinct(list)
    requires s.PlainText? && !TitleTaken(list, s.text.title)
    ensures TextTitlesDistinct(list + [s])
  {
    var r := list + [s];
    assert forall k :: 0 <= k < |list| ==> LowerTitle(r[k]) != LowerTitle(s);
  }

  lemma AppendKeepsTitlesTrimmed(list: seq<Suggestion>, s: Suggestion)
    requires TextTitlesTrimmed(list)
    requires s.PlainText? ==> Trim(s.text.title) == s.text.title
    ensures TextTitlesTrimmed(list + [s])
  {
    var r := list + [s];
    forall k | 0 <= k < |r| && r[k].PlainText?
      ensures Trim(r[k].text.title) == r[k].text.title
    {
      if k < |list| {
        assert r[k] == list[k];
      }
    }
  }

  /** Appending a Steam suggestion that passed the `==` check of
      `add_steam_suggestion` keeps the list well formed. */
  lemma AppendSteamKeepsWellFormed(list: seq<Suggestion>, s: Suggestion)
    requires WellFormed(list)
    requires s.SteamApp?
    requires !ContainsEqual(list, s)
    ensures WellFormed(list + [s])
  {
    AppendSteamKeepsNoEqualPair(list, s);
    AppendSteamKeepsTitlesDistinct(list, s);
    AppendKeepsTitlesTrimmed(list, s);
  }

  lemma AppendSteamKeepsNoEqualPair(list: seq<Suggestion>, s: Suggestion)
    requires NoEqualPair(list)
    requires s.SteamApp? && !ContainsEqual(list, s)
    ensures NoEqualPair(list + [s])
  {
    var r := list + [s];
    forall i, j | 0 <= i < |r| && 0 <= j < |r| && i != j ensures !Eq(r[i], r[j]) {
      if i == |list| {
        EqReflexiveSymmetric(r[i], r[j]);
        assert !Eq(r[j], s);
      } else if j == |list| {
        assert !Eq(r[i], s);
      }
    }
  }

  lemma AppendSteamKeepsTitlesDistinct(list: seq<Suggestion>, s: Suggestion)
    requires TextTitlesDistinct(list)
    requires s.SteamApp?
    ensures TextTitlesDistinct(list + [s])
  {
  }

  /** Swap-removing any entry keeps the list well formed: the entries left are
      entries of the old list, at distinct old positions. */
  lemma SwapRemoveKeepsWellFormed(list: seq<Suggestion>, i: nat)
    requires i < |list| && WellFormed(list)
    ensures WellFormed(SwapRemove(list, i))
  {
    SwapRemoveKeepsNoEqualPair(list, i);
    SwapRemoveKeepsTitlesDistinct(list, i);
    SwapRemoveKeepsTitlesTrimmed(list, i);
  }

  /** Position `j` of the swap-removed list holds the old element at `SwapSource(n, i, j)`,
      and distinct positions come from distinct old positions. */
  function SwapSource(n: nat, i: nat, j: nat): int
  {
    if j == i then n - 1 else j
  }

  lemma SwapRemoveSource<T>(list: seq<T>, i: nat)
    requires i < |list|
    ensures forall j :: 0 <= j < |list| - 1 ==>
              (0 <= SwapSource(|list|, i, j) < |list| && SwapRemove(list, i)[j] == list[SwapSource(|list|, i, j)])
    ensures forall j, k :: 0 <= j < |list| - 1 && 0 <= k < |list| - 1 && j != k ==>
                           SwapSource(|list|, i, j) != SwapSource(|list|, i, k)
  {
  }

  lemma SwapRemoveKeepsNoEqualPair(list: seq<Suggestion>, i: nat)
    requires i < |list| && NoEqualPair(list)
    ensures NoEqualPair(SwapRemove(list, i))
  {
    SwapRemoveSource(list, i);
  }

  lemma SwapRemoveKeepsTitlesDistinct(list: seq<Suggestion>, i: nat)
    requires i < |list| && TextTitlesDistinct(list)
    ensures TextTitlesDistinct(SwapRemove(list, i))
  {
    SwapRemoveSource(list, i);
  }

  lemma SwapRemoveKeepsTitlesTrimmed(list: seq<Suggestion>, i: nat)
    requires i < |list| && TextTitlesTrimmed(list)
    ensures TextTitlesTrimmed(SwapRemove(list, i))
  {
    SwapRemoveSource(list, i);
  }

  /** The duplicate check of `add_steam_suggestion` finds a Steam entry by app
      id and a text entry only by a title spelled exactly as the app's name. */
  lemma SteamDuplicateIsExact(list: seq<Suggestion>, requester: UserId, app: App)
    ensures ContainsEqual(list, SteamApp(requester, app)) <==>
              exists i :: 0 <= i < |list| &&
                (if list[i].SteamApp? then list[i].app.id == app.id else list[i].text.title == app.name)
  {
    var c := SteamApp(requester, app);
    if ContainsEqual(list, c) {
      var i :| 0 <= i < |list| && Eq(list[i], c);
      assert if list[i].SteamApp? then list[i].app.id == app.id else list[i].text.title == app.name;
    }
    if exists i :: 0 <= i < |list| &&
         (if list[i].SteamApp? then list[i].app.id == app.id else list[i].text.title == app.name) {
      var i :| 0 <= i < |list| &&
        (if list[i].SteamApp? then list[i].app.id == app.id else list[i].text.title == app.name);
      assert Eq(list[i], c);
    }
  }

  /** The case-insensitive uniqueness of titles does not hold across variants: a
      Steam app whose name differs from a text title only in case is not `==` to
      it, so `add_steam_suggestion` accepts it. */
  lemma SteamAddIgnoresCase()
    ensures var text := PlainText(1, TextSuggestion("Portal", None, None));
            var app := SteamApp(2, App(400, "PORTAL"));
            !ContainsEqual([text], app) && LowerTitle(text) == LowerTitle(app)
  {
    var text := PlainText(1, TextSuggestion("Portal", None, None));
    var app := SteamApp(2, App(400, "PORTAL"));
    assert AsciiLower("Portal") == "portal";
    assert AsciiLower("PORTAL") == "portal";
    assert !Eq(text, app);
  }

  // ---------------------------------------------------------------------------
  // The store

  /** What a command reports. */
  datatype Outcome =
    | NotInGuild          // the message did not come from a guild channel
    | NoArguments         // no type keyword at all (logged, no reply)
    | InvalidType         // the type keyword is neither "plain" nor "steam"
    | MissingArgument     // no title, id or name after the keyword
    | InvalidSteamId      // a number that is not a catalogue id
    | InvalidSteamName    // a name that is not a catalogue name
    | AlreadySuggested
    | Added
    | NoSuchTitle
    | NotOwner
    | Removed

  datatype LookupError = UnknownId | UnknownName

  /** How the Steam commands turn their argument into an app: a string that parses
      as a `u32` is looked up as an id, anything else as an exact name. */
  function LookupApp(client: Client, key: string): (r: Result<App, LookupError>)
    ensures ParseU32(key).Some? ==>
      var id := ParseU32(key).value;
      && (r.Ok? <==> exists i :: 0 <= i < |client.apps.list| && client.apps.list[i].id == id)
      && (r.Ok? ==> r.value.id == id
                    && exists i :: 0 <= i < |client.apps.list| && client.apps.list[i] == r.value
                                   && forall j :: 0 <= j < i ==> client.apps.list[j].id != id)
      && (r.Err? ==> r.error == UnknownId)
    ensures ParseU32(key).None? ==>
      && (r.Ok? <==> exists i :: 0 <= i < |client.apps.list| && client.apps.list[i].name == key)
      && (r.Ok? ==> r.value.name == key
                    && exists i :: 0 <= i < |client.apps.list| && client.apps.list[i] == r.value
                                   && forall j :: 0 <= j < i ==> client.apps.list[j].name != key)
      && (r.Err? ==> r.error == UnknownName)
  {
    match ParseU32(key)
    case Some(id) => (
      match GameById(client, id)
      case Ok(app) => Ok(app)
      case Err(_) => Err(UnknownId))
    case None => (
      match GameByName(client, key)
      case Ok(app) => Ok(app)
      case Err(_) => Err(UnknownName))
  }

  /** The text suggestion `add_text_suggestion` builds from its arguments: the
      trimmed title (empty when there is none), then the genre and the url as given. */
  function TextFromArgs(args: seq<string>): (t: TextSuggestion)
    ensures Trim(t.title) == t.title
    ensures |args| > 0 ==> t.title == Trim(args[0])
    ensures |args| == 0 ==> t.title == ""
    ensures t.genre.Some? <==> |args| > 1
    ensures t.genre.Some? ==> t.genre.value == args[1]
    ensures t.url.Some? <==> |args| > 2
    ensures t.url.Some? ==> t.url.value == args[2]
  {
    TrimIdempotentOrEmpty(args);
    TextSuggestion(
      if |args| > 0 then Trim(args[0]) else "",
      if |args| > 1 then Some(args[1]) else None,
      if |args| > 2 then Some(args[2]) else None)
  }

  lemma TrimIdempotentOrEmpty(args: seq<string>)
    ensures |args| > 0 ==> Trim(Trim(args[0])) == Trim(args[0])
    ensures Trim("") == ""
  {
    if |args| > 0 { TrimIdempotent(args[0]); }
  }

  /** Every guild's list is well formed. */
  predicate AllWellFormed(m: map<GuildId, seq<Suggestion>>)
  {
    forall g :: g in m ==> WellFormed(m[g])
  }

  lemma GuildListWellFormed(m: map<GuildId, seq<Suggestion>>, g: GuildId)
    requires AllWellFormed(m)
    ensures WellFormed(GuildList(m, g))
  {
  }

  /** Adding a text suggestion that passed the duplicate check keeps the store well formed. */
  lemma AddTextKeepsStoreWellFormed(m: map<GuildId, seq<Suggestion>>, g: GuildId, s: Suggestion)
    requires AllWellFormed(m)
    requires s.PlainText? && Trim(s.text.title) == s.text.title
    requires !TitleTaken(GuildList(m, g), s.text.title)
    ensures AllWellFormed(m[g := GuildList(m, g) + [s]])
  {
    GuildListWellFormed(m, g);
    AppendTextKeepsWellFormed(GuildList(m, g), s);
    UpdateKeepsAllWellFormed(m, g, GuildList(m, g) + [s]);
  }

  /** Adding a Steam suggestion that passed the `==` check keeps the store well formed. */
  lemma AddSteamKeepsStoreWellFormed(m: map<GuildId, seq<Suggestion>>, g: GuildId, s: Suggestion)
    requires AllWellFormed(m)
    requires s.SteamApp? && !ContainsEqual(GuildList(m, g), s)
    ensures AllWellFormed(m[g := GuildList(m, g) + [s]])
  {
    GuildListWellFormed(m, g);
    AppendSteamKeepsWellFormed(GuildList(m, g), s);
    UpdateKeepsAllWellFormed(m, g, GuildList(m, g) + [s]);
  }

  /** Replacing one guild's list by a well-formed one keeps the whole store well formed. */
  lemma UpdateKeepsAllWellFormed(m: map<GuildId, seq<Suggestion>>, g: GuildId, list: seq<Suggestion>)
    requires AllWellFormed(m) && WellFormed(list)
    ensures AllWellFormed(m[g := list])
  {
  }

  // ---------------------------------------------------------------------------
  // Each command's step on a guild, as a relation between the store before, the
  // store after and the reply

  /** The guild part of `add_text_suggestion`: a title taken ignoring ASCII case
      is refused and nothing changes; otherwise the entry built from the
      arguments is appended to the guild's list. */
  predicate TextAddStep(before: map<GuildId, seq<Suggestion>>, after: map<GuildId, seq<Suggestion>>,
                        g: GuildId, author: UserId, args: seq<string>, outcome: Outcome)
  {
    var list := GuildList(before, g);
    var t := TextFromArgs(args);
    && (outcome == AlreadySuggested <==> TitleTaken(list, t.title))
    && (outcome == AlreadySuggested ==> after == before)
    && (outcome != AlreadySuggested ==> outcome == Added && after == before[g := list + [PlainText(author, t)]])
  }

  /** The guild part of `add_steam_suggestion`: a missing argument or a failed
      catalogue look-up is reported and nothing changes; an app `==` to an entry
      is refused; otherwise the app is appended to the guild's list. */
  predicate SteamAddStep(before: map<GuildId, seq<Suggestion>>, after: map<GuildId, seq<Suggestion>>,
                         g: GuildId, author: UserId, args: seq<string>, client: Client, outcome: Outcome)
  {
    if args == [] then outcome == MissingArgument && after == before
    else
      var list := GuildList(before, g);
      match LookupApp(client, Trim(args[0]))
      case Err(e) => outcome == (if e == UnknownId then InvalidSteamId else InvalidSteamName) && after == before
      case Ok(app) =>
        && (outcome == AlreadySuggested <==> ContainsEqual(list, SteamApp(author, app)))
        && (outcome == AlreadySuggested ==> after == before)
        && (outcome != AlreadySuggested ==> outcome == Added && after == before[g := list + [SteamApp(author, app)]])
  }

  /** The removal both remove commands end in: no entry with the title is
      reported; if the first one belongs to someone else it stays; otherwise it is
      swap-removed. */
  predicate TitleRemoveStep(before: map<GuildId, seq<Suggestion>>, after: map<GuildId, seq<Suggestion>>,
                            g: GuildId, requester: UserId, title: string, outcome: Outcome)
  {
    var list := GuildList(before, g);
    match IndexOfTitle(list, title)
    case None => outcome == NoSuchTitle && after == before
    case Some(i) =>
      && (outcome == NotOwner <==> User(list[i]) != requester)
      && (outcome == NotOwner ==> after == before)
      && (outcome != NotOwner ==> outcome == Removed && after == before[g := SwapRemove(list, i)])
  }

  /** The guild part of `remove_text_suggestion`: the trimmed first argument is
      the title looked for. */
  predicate TextRemoveStep(before: map<GuildId, seq<Suggestion>>, after: map<GuildId, seq<Suggestion>>,
                           g: GuildId, requester: UserId, args: seq<string>, outcome: Outcome)
  {
    if args == [] then outcome == MissingArgument && after == before
    else TitleRemoveStep(before, after, g, requester, Trim(args[0]), outcome)
  }

  /** The guild part of `remove_steam_suggestion`: the argument is resolved to a
      catalogue app and the app's name is the title looked for. */
  predicate SteamRemoveStep(before: map<GuildId, seq<Suggestion>>, after: map<GuildId, seq<Suggestion>>,
                            g: GuildId, requester: UserId, args: seq<string>, client: Client, outcome: Outcome)
  {
    if args == [] then outcome == MissingArgument && after == before
    else
      match LookupApp(client, Trim(args[0]))
      case Err(e) => outcome == (if e == UnknownId then InvalidSteamId else InvalidSteamName) && after == before
      case Ok(app) => TitleRemoveStep(before, after, g, requester, app.name, outcome)
  }

  /** A text add keeps the store well formed. */
  lemma TextAddStepKeepsWellFormed(before: map<GuildId, seq<Suggestion>>, after: map<GuildId, seq<Suggestion>>,
                                   g: GuildId, author: UserId, args: seq<string>, outcome: Outcome)
    requires AllWellFormed(before) && TextAddStep(before, after, g, author, args, outcome)
    ensures AllWellFormed(after)
  {
    if outcome != AlreadySuggested {
      AddTextKeepsStoreWellFormed(before, g, PlainText(author, TextFromArgs(args)));
    }
  }

  /** A Steam add keeps the store well formed. */
  lemma SteamAddStepKeepsWellFormed(before: map<GuildId, seq<Suggestion>>, after: map<GuildId, seq<Suggestion>>,
                                    g: GuildId, author: UserId, args: seq<string>, client: Client, outcome: Outcome)
    requires AllWellFormed(before) && SteamAddStep(before, after, g, author, args, client, outcome)
    ensures AllWellFormed(after)
  {
    if args != [] && LookupApp(client, Trim(args[0])).Ok? && outcome != AlreadySuggested {
      AddSteamKeepsStoreWellFormed(before, g, SteamApp(author, LookupApp(client, Trim(args[0])).value));
    }
  }

  /** Either removal keeps the store well formed. */
  lemma TitleRemoveStepKeepsWellFormed(before: map<GuildId, seq<Suggestion>>, after: map<GuildId, seq<Suggestion>>,
                                       g: GuildId, requester: UserId, title: string, outcome: Outcome)
    requires AllWellFormed(before) && TitleRemoveStep(before, after, g, requester, title, outcome)
    ensures AllWellFormed(after)
  {
    var list := GuildList(before, g);
    var found := IndexOfTitle(list, title);
    if found.Some? && outcome != NotOwner {
      GuildListWellFormed(before, g);
      SwapRemoveKeepsWellFormed(list, found.value);
      UpdateKeepsAllWellFormed(before, g, SwapRemove(list, found.value));
    }
  }

  /** `GameSuggestions`: every guild's suggestion list. */
  class SuggestionStore {
    var lists: map<GuildId, seq<Suggestion>>

    ghost predicate Valid()
      reads this
    {
      AllWellFormed(lists)
    }

    /** `GameSuggestions::new`: no guild has suggestions yet. */
    constructor ()
      ensures Valid() && lists == map[]
    {
      lists := map[];
    }

    /** Appends to a guild's list, creating it when the guild has none. */
    method Append(g: GuildId, s: Suggestion)
      modifies this
      ensures lists == old(lists)[g := GuildList(old(lists), g) + [s]]
    {
      if g in lists {
        lists := lists[g := lists[g] + [s]];
      } else {
        assert GuildList(lists, g) + [s] == [s];
        lists := lists[g := [s]];
      }
    }

    /** `list_suggestions`: the listing of the guild's entries, or nothing outside
        a guild. */
    method ListSuggestions(gid: Option<GuildId>) returns (r: Option<string>)
      ensures gid.None? <==> r.None?
      ensures gid.Some? ==> r == Some(Listing(GuildList(lists, gid.value)))
    {
      if gid.None? {
        return None;
      }
      var list := GuildList(lists, gid.value);
      var block := "";
      var i := 0;
      while i < |list|
        invariant i <= |list|
        invariant block == Listing(list[..i])
      {
        assert list[..i + 1][..i] == list[..i];
        block := block + ListEntry(list[i]);
        i := i + 1;
      }
      assert list[..i] == list;
      r := Some(block);
    }

    /** `add_text_suggestion` (its arguments follow the "plain" keyword). */
    method AddText(gid: Option<GuildId>, author: UserId, args: seq<string>) returns (outcome: Outcome)
      modifies this
      ensures old(Valid()) ==> Valid()
      ensures gid.None? ==> outcome == NotInGuild && lists == old(lists)
      ensures gid.Some? ==> TextAddStep(old(lists), lists, gid.value, author, args, outcome)
    {
      if gid.None? {
        return NotInGuild;
      }
      outcome := InsertText(gid.value, PlainText(author, TextFromArgs(args)));
    }

    /** The guild part of `add_text_suggestion`: a text suggestion whose title is
        taken, ignoring ASCII case, is refused; otherwise it is appended. */
    method InsertText(g: GuildId, s: Suggestion) returns (outcome: Outcome)
      requires s.PlainText? && Trim(s.text.title) == s.text.title
      modifies this
      ensures old(Valid()) ==> Valid()
      ensures outcome == AlreadySuggested <==> TitleTaken(GuildList(old(lists), g), s.text.title)
      ensures outcome == AlreadySuggested ==> lists == old(lists)
      ensures outcome != AlreadySuggested ==>
                outcome == Added && lists == old(lists)[g := GuildList(old(lists), g) + [s]]
    {
      if TitleTaken(GuildList(lists, g), s.text.title) {
        return AlreadySuggested;
      }
      if Valid() {
        AddTextKeepsStoreWellFormed(lists, g, s);
      }
      Append(g, s);
      outcome := Added;
    }

    /** `add_steam_suggestion` (its argument follows the "steam" keyword). */
    method AddSteam(gid: Option<GuildId>, author: UserId, args: seq<string>, client: Client)
      returns (outcome: Outcome)
      modifies this
      ensures old(Valid()) ==> Valid()
      ensures gid.None? ==> outcome == NotInGuild && lists == old(lists)
      ensures gid.Some? ==> SteamAddStep(old(lists), lists, gid.value, author, args, client, outcome)
    {
      if gid.None? {
        return NotInGuild;
      }
      var g := gid.value;
      if args == [] {
        return MissingArgument;
      }
      var found := LookupApp(client, Trim(args[0]));
      if found.Err? {
        return if found.error == UnknownId then InvalidSteamId else InvalidSteamName;
      }
      var s := SteamApp(author, found.value);
      if g in lists && ContainsEqual(lists[g], s) {
        return AlreadySuggested;
      }
      if Valid() {
        AddSteamKeepsStoreWellFormed(lists, g, s);
      }
      Append(g, s);
      outcome := Added;
    }

    /** The part both remove commands share: find the first entry whose title
        matches ignoring ASCII case; only its owner may swap-remove it. */
    method RemoveByTitle(g: GuildId, requester: UserId, title: string) returns (outcome: Outcome)
      modifies this
      ensures old(Valid()) ==> Valid()
      ensures TitleRemoveStep(old(lists), lists, g, requester, title, outcome)
    {
      var list := GuildList(lists, g);
      var idx := IndexOfTitle(list, title);
      if idx.None? {
        return NoSuchTitle;
      }
      var i := idx.value;
      if User(list[i]) != requester {
        return NotOwner;
      }
      ghost var before := lists;
      lists := lists[g := SwapRemove(list, i)];
      outcome := Removed;
      if AllWellFormed(before) {
        TitleRemoveStepKeepsWellFormed(before, lists, g, requester, title, outcome);
      }
    }

    /** `remove_text_suggestion` (its arguments follow the "plain" keyword). */
    method RemoveText(gid: Option<GuildId>, requester: UserId, args: seq<string>) returns (outcome: Outcome)
      modifies this
      ensures old(Valid()) ==> Valid()
      ensures gid.None? ==> outcome == NotInGuild && lists == old(lists)
      ensures gid.Some? ==> TextRemoveStep(old(lists), lists, gid.value, requester, args, outcome)
    {
      if gid.None? {
        return NotInGuild;
      }
      if args == [] {
        return MissingArgument;
      }
      outcome := RemoveByTitle(gid.value, requester, Trim(args[0]));
    }

    /** `remove_steam_suggestion`: the argument is resolved to a catalogue app and
        the app's name is the title looked for. */
    method RemoveSteam(gid: Option<GuildId>, requester: UserId, args: seq<string>, client: Client)
      returns (outcome: Outcome)
      modifies this
      ensures old(Valid()) ==> Valid()
      ensures gid.None? ==> outcome == NotInGuild && lists == old(lists)
      ensures gid.Some? ==> SteamRemoveStep(old(lists), lists, gid.value, requester, args, client, outcome)
    {
      if gid.None? {
        return NotInGuild;
      }
      if args == [] {
        return MissingArgument;
      }
      var found := LookupApp(client, Trim(args[0]));
      if found.Err? {
        return if found.error == UnknownId then InvalidSteamId else InvalidSteamName;
      }
      outcome := RemoveByTitle(gid.value, requester, found.value.name);
    }

    /** `add_suggestion`: the first argument picks the kind; the remaining
        arguments go to the add of that kind. */
    method AddSuggestion(gid: Option<GuildId>, author: UserId, args: seq<string>, client: Client)
      returns (outcome: Outcome)
      modifies this
      ensures old(Valid()) ==> Valid()
      ensures args == [] ==> outcome == NoArguments && lists == old(lists)
      ensures args != [] ==>
        match ParseKind(args[0])
        case None => outcome == InvalidType && lists == old(lists)
        case Some(kind) =>
          if gid.None? then outcome == NotInGuild && lists == old(lists)
          else if kind == Plain then TextAddStep(old(lists), lists, gid.value, author, args[1..], outcome)
          else SteamAddStep(old(lists), lists, gid.value, author, args[1..], client, outcome)
    {
      if args == [] {
        return NoArguments;
      }
      match ParseKind(args[0])
      case None =>
        outcome := InvalidType;
      case Some(Plain) =>
        outcome := AddText(gid, author, args[1..]);
      case Some(SteamKind) =>
        outcome := AddSteam(gid, author, args[1..], client);
    }

    /** `remove_suggestion`: the first argument picks the kind; the remaining
        arguments go to the removal of that kind. */
    method RemoveSuggestion(gid: Option<GuildId>, requester: UserId, args: seq<string>, client: Client)
      returns (outcome: Outcome)
      modifies this
      ensures old(Valid()) ==> Valid()
      ensures args == [] ==> outcome == NoArguments && lists == old(lists)
      ensures args != [] ==>
        match ParseKind(args[0])
        case None => outcome == InvalidType && lists == old(lists)
        case Some(kind) =>
          if gid.None? then outcome == NotInGuild && lists == old(lists)
          else if kind == Plain then TextRemoveStep(old(lists), lists, gid.value, requester, args[1..], outcome)
          else SteamRemoveStep(old(lists), lists, gid.value, requester, args[1..], client, outcome)
    {
      if args == [] {
        return NoArguments;
      }
      match ParseKind(args[0])
      case None =>
        outcome := InvalidType;
      case Some(Plain) =>
        outcome := RemoveText(gid, requester, args[1..]);
      case Some(SteamKind) =>
        outcome := RemoveSteam(gid, requester, args[1..], client);
    }
  }
}
