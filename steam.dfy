/**
 * The bot's view of the Steam catalogue (src/endpoints/steam.rs): an `App` is an
 * application id and its name, `Apps` the list fetched once at start-up, and a
 * `Client` answers look-ups by id or by exact name from that list.
 */
module Steam {
  import opened Wrappers
  import opened Text
  import opened Seqs

  /** A catalogue entry. */
  datatype App = App(id: U32, name: string)

  /** An entry as the Steam web-API library delivers it. */
  datatype LibraryApp = LibraryApp(id: U32, name: string)

  /** The catalogue: the app list in the order Steam returned it. */
  datatype Apps = Apps(list: seq<App>)

  /** The catalogue client; its connection to the web API is not part of this model. */
  datatype Client = Client(apps: Apps)

  const STORE_APP_PREFIX := "https://store.steampowered.com/app/"

  /** `App::url`: the store page of the app. */
  function Url(app: App): (r: string)
    ensures |r| > |STORE_APP_PREFIX| + 1
    ensures r[..|STORE_APP_PREFIX|] == STORE_APP_PREFIX && r[|r| - 1] == '/'
  {
    STORE_APP_PREFIX + Decimal(app.id) + "/"
  }

  /** Reads the app id back out of a store-page address; the inverse of `Url`. */
  function AppIdOfUrl(url: string): (r: Option<U32>)
    ensures r.Some? ==> Url(App(r.value, "")) == url
  {
    var n := |STORE_APP_PREFIX|;
    if |url| > n + 1 && url[..n] == STORE_APP_PREFIX && url[|url| - 1] == '/' then
      var digits := url[n..|url| - 1];
      if AllDigits(digits) && (|digits| == 1 || digits[0] != '0') && DigitsValue(digits) < U32_LIMIT then
        CanonicalDigits(digits);
        assert url == STORE_APP_PREFIX + digits + "/";
        Some(DigitsValue(digits))
      else None
    else None
  }

  /** A digit string without a leading zero is how `Decimal` prints its value. */
  lemma {:induction false} CanonicalDigits(s: string)
    requires s != [] && AllDigits(s) && (|s| == 1 || s[0] != '0')
    ensures Decimal(DigitsValue(s)) == s
    decreases |s|
  {
    if |s| > 1 {
      var p := s[..|s| - 1];
      assert p[0] == s[0];
      CanonicalDigits(p);
      var v := DigitsValue(s);
      assert v / 10 == DigitsValue(p) && v % 10 == DigitValue(s[|s| - 1]);
      assert DigitsValue(p) >= 1 by { LeadingDigitPositive(p); }
      assert s == p + [s[|s| - 1]];
    }
  }

  lemma {:induction false} LeadingDigitPositive(s: string)
    requires s != [] && AllDigits(s) && s[0] != '0'
    ensures DigitsValue(s) >= 1
    decreases |s|
  {
    if |s| > 1 {
      LeadingDigitPositive(s[..|s| - 1]);
    }
  }

  /** The store address names the app id and nothing else: it reads back to the
      id, and two apps share an address exactly when they share an id. */
  lemma UrlRoundTrip(a: App, b: App)
    ensures AppIdOfUrl(Url(a)) == Some(a.id)
    ensures Url(a) == Url(b) <==> a.id == b.id
  {
    var n := |STORE_APP_PREFIX|;
    var u := Url(a);
    assert u[n..|u| - 1] == Decimal(a.id);
    if Url(a) == Url(b) {
      assert Url(b)[n..|Url(b)| - 1] == Decimal(b.id);
      DecimalInjective(a.id, b.id);
    }
  }

  /** `Display for App`: a markdown link `[name](url)`. */
  function Display(app: App): (r: string)
    ensures |r| == |app.name| + |Url(app)| + 4
    ensures r[0] == '[' && r[1..1 + |app.name|] == app.name
    ensures r[1 + |app.name|..3 + |app.name|] == "]("
    ensures r[3 + |app.name|..|r| - 1] == Url(app) && r[|r| - 1] == ')'
  {
    var r := "[" + app.name + "](" + Url(app) + ")";
    assert r[1..1 + |app.name|] == app.name;
    assert r[3 + |app.name|..|r| - 1] == Url(app);
    r
  }

  /** No character of a store address is the closing bracket of a markdown link. */
  lemma UrlHasNoBracket(app: App)
    ensures forall i :: 0 <= i < |Url(app)| ==> Url(app)[i] != ']'
  {
    var u := Url(app);
    var n := |STORE_APP_PREFIX|;
    forall i | 0 <= i < |u| ensures u[i] != ']' {
      if i < n {
        assert u[i] == STORE_APP_PREFIX[i];
      } else if i < |u| - 1 {
        assert u[i] == Decimal(app.id)[i - n];
      }
    }
  }

  /** The bracket that closes the name is the last ']' of the rendered link. */
  lemma DisplayLastBracket(app: App)
    ensures Display(app)[1 + |app.name|] == ']'
    ensures forall i :: 1 + |app.name| < i < |Display(app)| ==> Display(app)[i] != ']'
  {
    var d := Display(app);
    var n := |app.name|;
    assert d[1 + n] == d[1 + n..3 + n][0];
    forall i | 1 + n < i < |d| ensures d[i] != ']' {
      DisplayAfterBracket(app, i);
    }
  }

  /** One character after the closing bracket: the `(`, a character of the
      store address, or the final `)`. */
  lemma DisplayAfterBracket(app: App, i: int)
    requires 1 + |app.name| < i < |Display(app)|
    ensures Display(app)[i] != ']'
  {
    var d := Display(app);
    var n := |app.name|;
    if i == 2 + n {
      assert d[i] != ']' by {
        assert d[i] == d[1 + n..3 + n][1];
      }
    } else if i < |d| - 1 {
      DisplayLinkChar(app, i);
      UrlHasNoBracket(app);
    } else {
      assert d[i] == ')';
    }
  }

  /** Between `](` and the final `)` the rendered link spells the store address. */
  lemma DisplayLinkChar(app: App, i: int)
    requires 3 + |app.name| <= i < |Display(app)| - 1
    ensures Display(app)[i] == Url(app)[i - 3 - |app.name|]
  {
    var d := Display(app);
    var link := d[3 + |app.name|..|d| - 1];
    assert link[i - 3 - |app.name|] == d[i];
  }

  /** Different apps are displayed differently: the rendered link determines both
      the name and the id. */
  lemma DisplayInjective(a: App, b: App)
    requires Display(a) == Display(b)
    ensures a == b
  {
    DisplayLastBracket(a);
    DisplayLastBracket(b);
    assert |a.name| == |b.name|;
    UrlRoundTrip(a, b);
  }

  /** `From<&rsteam::steam_apps::App> for App`. */
  function FromLibraryApp(a: LibraryApp): (r: App)
    ensures r.id == a.id && r.name == a.name
  {
    App(a.id, a.name)
  }

  /** `From<Vec<rsteam::steam_apps::App>> for Apps`: every entry converted, same
      length, same order. */
  function FromLibraryApps(list: seq<LibraryApp>): (r: Apps)
    ensures |r.list| == |list|
    ensures forall i :: 0 <= i < |list| ==> r.list[i].id == list[i].id && r.list[i].name == list[i].name
  {
    Apps(seq(|list|, i requires 0 <= i < |list| => FromLibraryApp(list[i])))
  }

  /** `Apps::is_empty`. */
  function IsEmpty(apps: Apps): (r: bool)
    ensures r <==> |apps.list| == 0
  {
    apps.list == []
  }

  /** `Apps::find_by_id`: a copy of the first app with this id, or an error when
      there is none. */
  function FindById(apps: Apps, id: U32): (r: Result<App, ()>)
    ensures r.Ok? <==> exists i :: 0 <= i < |apps.list| && apps.list[i].id == id
    ensures r.Ok? ==> r.value.id == id
                      && exists i :: 0 <= i < |apps.list| && apps.list[i] == r.value
                                     && forall j :: 0 <= j < i ==> apps.list[j].id != id
  {
    match Find(apps.list, (a: App) => a.id == id)
    case Some(a) => Ok(a)
    case None => Err(())
  }

  /** `Apps::find_by_name`: a copy of the first app whose name is exactly `name`
      (case-sensitive), or an error when there is none. */
  function FindByName(apps: Apps, name: string): (r: Result<App, ()>)
    ensures r.Ok? <==> exists i :: 0 <= i < |apps.list| && apps.list[i].name == name
    ensures r.Ok? ==> r.value.name == name
                      && exists i :: 0 <= i < |apps.list| && apps.list[i] == r.value
                                     && forall j :: 0 <= j < i ==> apps.list[j].name != name
  {
    match Find(apps.list, (a: App) => a.name == name)
    case Some(a) => Ok(a)
    case None => Err(())
  }

  /** Apps appended after the first match never change what `find_by_id` answers. */
  lemma {:induction false} FindByIdStable(apps: Apps, more: seq<App>, id: U32)
    requires FindById(apps, id).Ok?
    ensures FindById(Apps(apps.list + more), id) == FindById(apps, id)
  {
    var p := (a: App) => a.id == id;
    var i :| IsFirstMatch(apps.list, p, i);
    assert IsFirstMatch(apps.list + more, p, i);
    var k :| IsFirstMatch(apps.list + more, p, k) && (apps.list + more)[k] == FindById(Apps(apps.list + more), id).value;
    var m :| IsFirstMatch(apps.list, p, m) && apps.list[m] == FindById(apps, id).value;
    FirstMatchUnique(apps.list + more, p, i, k);
    FirstMatchUnique(apps.list, p, i, m);
  }

  /** `Client::game_by_id`: an error when the catalogue is empty, otherwise the
      catalogue look-up by id. */
  function GameById(client: Client, id: U32): (r: Result<App, ()>)
    ensures IsEmpty(client.apps) ==> r.Err?
    ensures r == FindById(client.apps, id)
  {
    if IsEmpty(client.apps) then Err(()) else FindById(client.apps, id)
  }

  /** `Client::game_by_name`: an error when the catalogue is empty, otherwise the
      catalogue look-up by exact name. */
  function GameByName(client: Client, name: string): (r: Result<App, ()>)
    ensures IsEmpty(client.apps) ==> r.Err?
    ensures r == FindByName(client.apps, name)
  {
    if IsEmpty(client.apps) then Err(()) else FindByName(client.apps, name)
  }
}
