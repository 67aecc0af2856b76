/**
 * The game selection of the gamelist parser: `get_game_info`, `search_favorite_games`,
 * `search_last_20_added` (with its stable descending sort and its cap of 20) and
 * `process_gamelist_files`, which runs one of them over every discovered `gamelist.xml`.
 */
module GamelistParser {
  import opened Wrappers
  import opened ElementTree
  import opened Timestamp
  import Walk

  /** A value in a game record: an element's text (`None` when the element is empty) or a parsed `added_date`. */
  datatype Value = Text(text: Option<string>) | Date(date: DateTime)

  /** A game record: the dict `get_game_info` builds, keyed by field name. */
  type GameInfo = map<string, Value>

  /** The exception that escapes `search_last_20_added`: `strptime` called on an element without text. */
  datatype PyError = TypeError

  // ----- get_game_info -----

  /** The record `get_game_info(game)` returns: `name` and `thumbnail`, each present iff that direct child exists, holding its text unchanged. */
  function GameInfoOf(game: Element): (info: GameInfo)
    ensures info.Keys <= {"name", "thumbnail"}
    ensures "name" in info <==> Find(game, "name").Some?
    ensures "name" in info ==> info["name"] == Text(Find(game, "name").value.text)
    ensures "thumbnail" in info <==> Find(game, "thumbnail").Some?
    ensures "thumbnail" in info ==> info["thumbnail"] == Text(Find(game, "thumbnail").value.text)
  {
    var name := Find(game, "name");
    var thumbnail := Find(game, "thumbnail");
    var withName: GameInfo := if name.Some? then map["name" := Text(name.value.text)] else map[];
    if thumbnail.Some? then withName["thumbnail" := Text(thumbnail.value.text)] else withName
  }

  /** `get_game_info`: fills the record field by field. */
  method GetGameInfo(game: Element) returns (gameInfo: GameInfo)
    ensures gameInfo == GameInfoOf(game)
  {
    gameInfo := map[];
    var nameElem := Find(game, "name");
    if nameElem.Some? {
      gameInfo := gameInfo["name" := Text(nameElem.value.text)];
    }
    var thumbnailElem := Find(game, "thumbnail");
    if thumbnailElem.Some? {
      gameInfo := gameInfo["thumbnail" := Text(thumbnailElem.value.text)];
    }
  }

  // ----- search_favorite_games -----

  /** A game is a favorite when it has a direct `favorite` child, whatever that child's text. */
  predicate IsFavorite(game: Element) {
    Find(game, "favorite").Some?
  }

  /** The records of the favorite games among `games`, in their order. */
  function SelectFavorites(games: seq<Element>): seq<GameInfo> {
    if games == [] then []
    else
      var last := games[|games| - 1];
      SelectFavorites(games[..|games| - 1]) + (if IsFavorite(last) then [GameInfoOf(last)] else [])
  }

  /** `search_favorite_games(root)`. */
  function FavoriteGames(root: Element): seq<GameInfo> {
    SelectFavorites(FindAll(root, "game"))
  }

  /** `search_favorite_games`: the loop over `root.findall(".//game")`. */
  method SearchFavoriteGames(root: Element) returns (result: seq<GameInfo>)
    ensures result == FavoriteGames(root)
  {
    result := [];
    var games := FindAll(root, "game");
    for i := 0 to |games|
      invariant result == SelectFavorites(games[..i])
    {
      var game := games[i];
      FavoritesStep(games, i);
      if Find(game, "favorite").Some? {
        var gameInfo := GetGameInfo(game);
        result := result + [gameInfo];
      }
    }
    assert games[..|games|] == games;
  }

  /** One turn of the favourites loop, on the game at position `i`. */
  lemma FavoritesStep(games: seq<Element>, i: nat)
    requires i < |games|
    ensures SelectFavorites(games[..i + 1]) == SelectFavorites(games[..i]) + (if IsFavorite(games[i]) then [GameInfoOf(games[i])] else [])
  {
    assert games[..i + 1][..i] == games[..i];
  }

  function CountFavorites(games: seq<Element>): nat {
    if games == [] then 0
    else CountFavorites(games[..|games| - 1]) + (if IsFavorite(games[|games| - 1]) then 1 else 0)
  }

  /** One record per favorite game, so never more records than games. */
  lemma {:induction false} FavoritesLength(games: seq<Element>)
    ensures |SelectFavorites(games)| == CountFavorites(games) <= |games|
  {
    if games != [] {
      FavoritesLength(games[..|games| - 1]);
    }
  }

  /** Selection keeps document order: the records for `a + b` are those for `a` followed by those for `b`. */
  lemma {:induction false} FavoritesAppend(a: seq<Element>, b: seq<Element>)
    ensures SelectFavorites(a + b) == SelectFavorites(a) + SelectFavorites(b)
    decreases |b|
  {
    if b == [] {
      assert a + b == a;
    } else {
      var init := b[..|b| - 1];
      assert (a + b)[..|a + b| - 1] == a + init;
      assert (a + b)[|a + b| - 1] == b[|b| - 1];
      FavoritesAppend(a, init);
    }
  }

  /** `info` is the record the loop appends for `game`. */
  predicate PickedAs(game: Element, info: GameInfo) {
    IsFavorite(game) && info == GameInfoOf(game)
  }

  lemma FavoritesLast(games: seq<Element>, info: GameInfo)
    requires games != []
    ensures info in SelectFavorites(games) <==>
              info in SelectFavorites(games[..|games| - 1]) || PickedAs(games[|games| - 1], info)
  {
  }

  lemma {:induction false} FavoritesSound(games: seq<Element>, info: GameInfo) returns (i: nat)
    requires info in SelectFavorites(games)
    ensures i < |games| && PickedAs(games[i], info)
  {
    var init := games[..|games| - 1];
    FavoritesLast(games, info);
    if info in SelectFavorites(init) {
      i := FavoritesSound(init, info);
      assert games[i] == init[i];
    } else {
      i := |games| - 1;
    }
  }

  lemma {:induction false} FavoritesComplete(games: seq<Element>, i: nat)
    requires i < |games| && IsFavorite(games[i])
    ensures GameInfoOf(games[i]) in SelectFavorites(games)
  {
    var init := games[..|games| - 1];
    FavoritesLast(games, GameInfoOf(games[i]));
    if i < |games| - 1 {
      assert init[i] == games[i];
      FavoritesComplete(init, i);
    }
  }

  /** A record is returned iff it is the record of some game that has a `favorite` child. */
  lemma FavoritesMembers(games: seq<Element>, info: GameInfo)
    ensures info in SelectFavorites(games) <==> exists i :: 0 <= i < |games| && PickedAs(games[i], info)
  {
    if info in SelectFavorites(games) {
      var i := FavoritesSound(games, info);
    }
    if exists i :: 0 <= i < |games| && PickedAs(games[i], info) {
      var i :| 0 <= i < |games| && PickedAs(games[i], info);
      FavoritesComplete(games, i);
    }
  }

  /** `search_favorite_games` returns at most one record per `game` element of the document. */
  lemma FavoriteGamesBound(root: Element)
    ensures |FavoriteGames(root)| <= |FindAll(root, "game")|
  {
    FavoritesLength(FindAll(root, "game"));
  }

  // ----- search_last_20_added -----

  /** What the `added_date` child of a game amounts to. */
  datatype Stamp = NoAddedDate | NoText | Unparsable | Stamped(date: DateTime)

  function StampOf(game: Element): (s: Stamp)
    ensures s == NoAddedDate <==> Find(game, "added_date").None?
    ensures s == NoText <==> Find(game, "added_date").Some? && Find(game, "added_date").value.text.None?
    ensures s.Stamped? ==> Find(game, "added_date").Some? && Find(game, "added_date").value.text.Some?
                           && ParseAddedDate(Find(game, "added_date").value.text.value) == Some(s.date)
    ensures s == Unparsable <==> Find(game, "added_date").Some? && Find(game, "added_date").value.text.Some?
                                 && ParseAddedDate(Find(game, "added_date").value.text.value).None?
  {
    match Find(game, "added_date")
    case None => NoAddedDate
    case Some(elem) =>
      match elem.text
      case None => NoText
      case Some(t) =>
        match ParseAddedDate(t)
        case None => Unparsable
        case Some(d) => Stamped(d)
  }

  /** The record of a dated game: `get_game_info` plus `added_date`. */
  function DatedInfo(game: Element, d: DateTime): GameInfo {
    GameInfoOf(game)["added_date" := Date(d)]
  }

  /**
   * The sort key `x["added_date"]`. Every record the sort sees carries a `Date` there (DatedCollected);
   * the fallback value only makes the function total.
   */
  function SortKey(info: GameInfo): DateTime {
    if "added_date" in info && info["added_date"].Date? then info["added_date"].date else DateTime(0, 0, 0, 0, 0, 0)
  }

  /** The first loop of `search_last_20_added`: the dated records, or the `TypeError` the first text-less `added_date` raises. */
  function CollectDated(games: seq<Element>): Result<seq<GameInfo>, PyError> {
    if games == [] then Success([])
    else
      var last := games[|games| - 1];
      match CollectDated(games[..|games| - 1])
      case Failure(e) => Failure(e)
      case Success(acc) =>
        match StampOf(last)
        case NoText => Failure(TypeError)
        case Stamped(d) => Success(acc + [DatedInfo(last, d)])
        case _ => Success(acc)
  }

  /** `x` comes no later than `y` in descending order of `added_date`. */
  predicate NotLater(x: GameInfo, y: GameInfo) {
    !Earlier(SortKey(x), SortKey(y))
  }

  /** Inserts `x` before the first record whose date is not later than its own. */
  function InsertByDate(x: GameInfo, s: seq<GameInfo>): (r: seq<GameInfo>)
    ensures multiset(r) == multiset(s) + multiset{x}
  {
    if s == [] then [x]
    else
      assert s == [s[0]] + s[1..];
      if Earlier(SortKey(x), SortKey(s[0])) then [s[0]] + InsertByDate(x, s[1..]) else [x] + s
  }

  /** `sorted(games, key=lambda x: x["added_date"], reverse=True)`, by insertion from the back. */
  function SortByDateDesc(s: seq<GameInfo>): (r: seq<GameInfo>)
    ensures multiset(r) == multiset(s)
  {
    if s == [] then []
    else
      assert s == [s[0]] + s[1..];
      InsertByDate(s[0], SortByDateDesc(s[1..]))
  }

  /** Descending by `added_date`: no record is earlier than one after it. */
  predicate Descending(s: seq<GameInfo>) {
    forall i, j :: 0 <= i < j < |s| ==> NotLater(s[i], s[j])
  }

  /** The records of `s` dated exactly `k`, in their order. */
  function WithDate(s: seq<GameInfo>, k: DateTime): seq<GameInfo> {
    if s == [] then [] else (if SortKey(s[0]) == k then [s[0]] else []) + WithDate(s[1..], k)
  }

  /** `[:20]`. */
  function FirstTwenty(s: seq<GameInfo>): (r: seq<GameInfo>)
    ensures |r| <= 20 && |r| == (if |s| < 20 then |s| else 20)
    ensures r == s[..|r|]
  {
    if |s| <= 20 then s else s[..20]
  }

  /** `search_last_20_added(root)`. */
  function Last20Added(root: Element): Result<seq<GameInfo>, PyError> {
    match CollectDated(FindAll(root, "game"))
    case Failure(e) => Failure(e)
    case Success(games) => Success(FirstTwenty(SortByDateDesc(games)))
  }

  /** `search_last_20_added`: the collecting loop, then the sort and the cut. */
  method SearchLast20Added(root: Element) returns (r: Result<seq<GameInfo>, PyError>)
    ensures r == Last20Added(root)
  {
    var result: seq<GameInfo> := [];
    var games: seq<GameInfo> := [];
    var all := FindAll(root, "game");
    for i := 0 to |all|
      invariant CollectDated(all[..i]) == Success(games)
    {
      var game := all[i];
      CollectDatedStep(all, i);
      var addedDateElem := Find(game, "added_date");
      if addedDateElem.Some? {
        if addedDateElem.value.text.None? {
          FailureSticks(all, i + 1);
          return Failure(TypeError);
        }
        var addedDate := ParseAddedDate(addedDateElem.value.text.value);
        if addedDate.Some? {
          var gameInfo := GetGameInfo(game);
          gameInfo := gameInfo["added_date" := Date(addedDate.value)];
          games := games + [gameInfo];
        }
      }
    }
    assert all[..|all|] == all;
    var gamesSorted := FirstTwenty(SortByDateDesc(games));
    result := result + gamesSorted;
    assert result == gamesSorted;
    r := Success(result);
  }

  /** One turn of the collecting loop, on the game at position `i`. */
  lemma CollectDatedStep(games: seq<Element>, i: nat)
    requires i < |games|
    ensures CollectDated(games[..i]).Success? ==>
      CollectDated(games[..i + 1]) ==
        match StampOf(games[i])
        case NoText => Failure(TypeError)
        case Stamped(d) => Success(CollectDated(games[..i]).value + [DatedInfo(games[i], d)])
        case _ => CollectDated(games[..i])
  {
    assert games[..i + 1][..i] == games[..i];
  }

  /** Once the collecting loop has failed, it stays failed: the exception escapes. */
  lemma {:induction false} FailureSticks(games: seq<Element>, n: nat)
    requires n <= |games| && CollectDated(games[..n]).Failure?
    ensures CollectDated(games) == Failure(TypeError)
    decreases |games| - n
  {
    if n < |games| {
      assert games[..n + 1][..n] == games[..n];
      FailureSticks(games, n + 1);
    } else {
      assert games[..n] == games;
      assert CollectDated(games).error.TypeError?;
    }
  }

  // ----- properties of the collecting loop -----

  function CountStamped(games: seq<Element>): nat {
    if games == [] then 0
    else CountStamped(games[..|games| - 1]) + (if StampOf(games[|games| - 1]).Stamped? then 1 else 0)
  }

  /** The loop raises `TypeError` iff some game has an `added_date` child without text. */
  lemma {:induction false} CollectDatedFails(games: seq<Element>)
    ensures CollectDated(games).Failure? <==> exists i :: 0 <= i < |games| && StampOf(games[i]) == NoText
  {
    if games != [] {
      var init := games[..|games| - 1];
      CollectDatedFails(init);
      if exists i :: 0 <= i < |init| && StampOf(init[i]) == NoText {
        var i :| 0 <= i < |init| && StampOf(init[i]) == NoText;
        assert games[i] == init[i];
      }
      if exists i :: 0 <= i < |games| && StampOf(games[i]) == NoText {
        var i :| 0 <= i < |games| && StampOf(games[i]) == NoText;
        if i < |games| - 1 {
          assert init[i] == games[i];
        }
      }
    }
  }

  /** When the loop does not raise, it keeps one record per game whose `added_date` parses. */
  lemma {:induction false} CollectDatedLength(games: seq<Element>)
    requires CollectDated(games).Success?
    ensures |CollectDated(games).value| == CountStamped(games) <= |games|
  {
    if games != [] {
      CollectDatedLength(games[..|games| - 1]);
    }
  }

  /** `info` is the record the loop keeps for `game`: the game's `added_date` parsed, and `info` is its record with that date. */
  predicate KeptAs(game: Element, info: GameInfo) {
    StampOf(game).Stamped? && info == DatedInfo(game, StampOf(game).date)
  }

  /** What one turn of the loop appends for `game`. */
  function Kept(game: Element): (r: seq<GameInfo>)
    ensures forall info :: info in r <==> KeptAs(game, info)
  {
    if StampOf(game).Stamped? then [DatedInfo(game, StampOf(game).date)] else []
  }

  lemma CollectDatedLast(games: seq<Element>)
    requires games != [] && CollectDated(games).Success?
    ensures CollectDated(games[..|games| - 1]).Success?
    ensures CollectDated(games).value == CollectDated(games[..|games| - 1]).value + Kept(games[|games| - 1])
  {
    var init, last := games[..|games| - 1], games[|games| - 1];
    var stamp := StampOf(last);
    CollectDatedStep(games, |games| - 1);
    assert games[..|games|] == games;
    if stamp.Stamped? {
      assert Kept(last) == [DatedInfo(last, stamp.date)];
    } else {
      assert Kept(last) == [];
      assert CollectDated(init).value + [] == CollectDated(init).value;
    }
  }

  /**
   * When the loop does not raise, it keeps exactly the games whose `added_date` parses, carrying the parsed
   * date under `added_date`; games without `added_date` or with an unparsable one are dropped.
   */
  lemma {:induction false} CollectDatedMembers(games: seq<Element>, info: GameInfo)
    requires CollectDated(games).Success?
    ensures info in CollectDated(games).value <==> exists i :: 0 <= i < |games| && KeptAs(games[i], info)
  {
    if games != [] {
      var init := games[..|games| - 1];
      CollectDatedLast(games);
      CollectDatedMembers(init, info);
      if exists i :: 0 <= i < |init| && KeptAs(init[i], info) {
        var i :| 0 <= i < |init| && KeptAs(init[i], info);
        assert games[i] == init[i];
      }
      if exists i :: 0 <= i < |games| && KeptAs(games[i], info) {
        var i :| 0 <= i < |games| && KeptAs(games[i], info);
        if i < |games| - 1 {
          assert init[i] == games[i];
        }
      }
    }
  }

  /** The loop keeps document order: the records for `a + b` are those for `a` followed by those for `b`, unless either raises. */
  lemma {:induction false} CollectDatedAppend(a: seq<Element>, b: seq<Element>)
    ensures CollectDated(a + b) ==
      match CollectDated(a)
      case Failure(e) => Failure(e)
      case Success(x) =>
        match CollectDated(b)
        case Failure(e) => Failure(e)
        case Success(y) => Success(x + y)
    decreases |b|
  {
    if b == [] {
      assert a + b == a;
      if CollectDated(a).Success? {
        assert CollectDated(a).value + [] == CollectDated(a).value;
      }
    } else {
      var init := b[..|b| - 1];
      assert (a + b)[..|a + b| - 1] == a + init;
      assert (a + b)[|a + b| - 1] == b[|b| - 1];
      CollectDatedAppend(a, init);
      if CollectDated(a).Success? && CollectDated(init).Success? {
        var x, y := CollectDated(a).value, CollectDated(init).value;
        assert forall z: seq<GameInfo> :: x + y + z == x + (y + z);
      }
    }
  }

  /** The sort key of a collected record is the date its `added_date` text parsed to. */
  lemma DatedKey(game: Element, d: DateTime)
    ensures SortKey(DatedInfo(game, d)) == d
    ensures "added_date" in DatedInfo(game, d) && DatedInfo(game, d)["added_date"] == Date(d)
  {
  }

  // ----- properties of the sort -----

  lemma NotLaterTransitive(x: GameInfo, y: GameInfo, z: GameInfo)
    ensures NotLater(x, y) && NotLater(y, z) ==> NotLater(x, z)
  {
    EarlierIsStrictTotalOrder(SortKey(x), SortKey(y), SortKey(z));
    EarlierIsStrictTotalOrder(SortKey(z), SortKey(y), SortKey(x));
    EarlierIsStrictTotalOrder(SortKey(x), SortKey(z), SortKey(y));
  }

  /** A record no later than any in a descending sequence can be put in front of it. */
  lemma ConsDescending(y: GameInfo, t: seq<GameInfo>)
    requires Descending(t)
    requires forall e :: e in t ==> NotLater(y, e)
    ensures Descending([y] + t)
  {
    var r := [y] + t;
    forall i, j | 0 <= i < j < |r| ensures NotLater(r[i], r[j]) {
      assert r[j] == t[j - 1];
      if i > 0 {
        assert r[i] == t[i - 1];
      }
    }
  }

  /** The head of a descending sequence is no later than any of its other records. */
  lemma HeadBound(s: seq<GameInfo>)
    requires s != [] && Descending(s)
    ensures forall e :: e in s[1..] ==> NotLater(s[0], e)
  {
    forall e | e in s[1..] ensures NotLater(s[0], e) {
      var k :| 0 <= k < |s[1..]| && s[1..][k] == e;
      assert s[k + 1] == e;
    }
  }

  lemma {:induction false} InsertDescending(x: GameInfo, s: seq<GameInfo>)
    requires Descending(s)
    ensures Descending(InsertByDate(x, s))
  {
    if s == [] {
      ConsDescending(x, []);
    } else {
      InsertByDateCons(x, s);
      HeadBound(s);
      assert Descending(s[1..]) by {
        forall i, j | 0 <= i < j < |s[1..]| ensures NotLater(s[1..][i], s[1..][j]) {
          assert s[1..][i] == s[i + 1] && s[1..][j] == s[j + 1];
        }
      }
      if Earlier(SortKey(x), SortKey(s[0])) {
        var rest := InsertByDate(x, s[1..]);
        InsertDescending(x, s[1..]);
        EarlierIsStrictTotalOrder(SortKey(x), SortKey(s[0]), SortKey(x));
        forall e | e in rest ensures NotLater(s[0], e) {
          assert e in multiset(rest);
        }
        ConsDescending(s[0], rest);
      } else {
        forall e | e in s ensures NotLater(x, e) {
          if e != s[0] {
            var k :| 0 <= k < |s| && s[k] == e;
            assert e in s[1..] by { assert s[1..][k - 1] == e; }
            NotLaterTransitive(x, s[0], e);
          }
        }
        ConsDescending(x, s);
      }
    }
  }

  /** The sort's output is in descending order of `added_date`. */
  lemma {:induction false} SortDescending(s: seq<GameInfo>)
    ensures Descending(SortByDateDesc(s))
  {
    if s != [] {
      SortDescending(s[1..]);
      InsertDescending(s[0], SortByDateDesc(s[1..]));
    }
  }

  lemma WithDateCons(y: GameInfo, t: seq<GameInfo>, k: DateTime)
    ensures WithDate([y] + t, k) == (if SortKey(y) == k then [y] else []) + WithDate(t, k)
  {
    assert ([y] + t)[1..] == t;
  }

  lemma InsertByDateCons(x: GameInfo, s: seq<GameInfo>)
    requires s != []
    ensures Earlier(SortKey(x), SortKey(s[0])) ==> InsertByDate(x, s) == [s[0]] + InsertByDate(x, s[1..])
    ensures !Earlier(SortKey(x), SortKey(s[0])) ==> InsertByDate(x, s) == [x] + s
  {
  }

  /** Where `x` goes in front, the records dated `k` are `x` when it has that date, then those of `s`. */
  lemma InsertInFront(x: GameInfo, s: seq<GameInfo>, k: DateTime)
    requires s == [] || !Earlier(SortKey(x), SortKey(s[0]))
    ensures WithDate(InsertByDate(x, s), k) == (if SortKey(x) == k then [x] else []) + WithDate(s, k)
  {
    if s != [] {
      InsertByDateCons(x, s);
    }
    WithDateCons(x, s, k);
  }

  /** Where `x` goes past `y`, their dates differ, so at most one of them is dated `k`. */
  lemma SwapPast(x: GameInfo, y: GameInfo, rest: seq<GameInfo>, k: DateTime)
    requires Earlier(SortKey(x), SortKey(y))
    ensures (if SortKey(y) == k then [y] else []) + ((if SortKey(x) == k then [x] else []) + rest)
         == (if SortKey(x) == k then [x] else []) + ((if SortKey(y) == k then [y] else []) + rest)
  {
    EarlierIsStrictTotalOrder(SortKey(x), SortKey(y), SortKey(x));
  }

  lemma {:induction false} InsertWithDate(x: GameInfo, s: seq<GameInfo>, k: DateTime)
    ensures WithDate(InsertByDate(x, s), k) == (if SortKey(x) == k then [x] else []) + WithDate(s, k)
  {
    if s == [] || !Earlier(SortKey(x), SortKey(s[0])) {
      InsertInFront(x, s, k);
    } else {
      var y, t := s[0], s[1..];
      InsertByDateCons(x, s);
      InsertWithDate(x, t, k);
      WithDateCons(y, InsertByDate(x, t), k);
      assert s == [y] + t;
      WithDateCons(y, t, k);
      SwapPast(x, y, WithDate(t, k), k);
    }
  }

  /** The sort is stable: the records with any one date keep their input order. */
  lemma {:induction false} SortStable(s: seq<GameInfo>, k: DateTime)
    ensures WithDate(SortByDateDesc(s), k) == WithDate(s, k)
  {
    if s != [] {
      SortStable(s[1..], k);
      InsertWithDate(s[0], SortByDateDesc(s[1..]), k);
    }
  }

  lemma {:induction false} WithDateMembers(s: seq<GameInfo>, k: DateTime, x: GameInfo)
    ensures x in WithDate(s, k) <==> x in s && SortKey(x) == k
  {
    if s != [] {
      WithDateMembers(s[1..], k, x);
      assert s == [s[0]] + s[1..];
    }
  }

  /** A non-empty sequence has a record dated like its first one. */
  lemma HasOwnDate(s: seq<GameInfo>)
    ensures s != [] ==> WithDate(s, SortKey(s[0])) != []
  {
  }

  /** Two descending sequences that agree on the records of every date are equal. */
  lemma {:induction false} DescendingDeterminedByDates(u: seq<GameInfo>, v: seq<GameInfo>)
    requires Descending(u) && Descending(v)
    requires forall k :: WithDate(u, k) == WithDate(v, k)
    ensures u == v
    decreases |u|
  {
    if u == [] || v == [] {
      HasOwnDate(u);
      HasOwnDate(v);
    } else {
      LeadNotEarlier(u, v);
      LeadNotEarlier(v, u);
      EarlierIsStrictTotalOrder(SortKey(u[0]), SortKey(v[0]), SortKey(u[0]));
      SameHead(u, v);
      SameTails(u, v);
      DescendingDeterminedByDates(u[1..], v[1..]);
    }
  }

  /** The first record of `u` also occurs in `v`, so `v`, being descending, starts no earlier than it. */
  lemma LeadNotEarlier(u: seq<GameInfo>, v: seq<GameInfo>)
    requires u != [] && v != [] && Descending(v)
    requires forall k :: WithDate(u, k) == WithDate(v, k)
    ensures !Earlier(SortKey(v[0]), SortKey(u[0]))
  {
    var a := SortKey(u[0]);
    WithDateMembers(u, a, u[0]);
    assert u[0] in WithDate(v, a);
    WithDateMembers(v, a, u[0]);
    var j :| 0 <= j < |v| && v[j] == u[0];
    if j > 0 {
      assert NotLater(v[0], v[j]);
    }
  }

  /** With equal leading dates, the records of that date start with both heads, so the heads are equal. */
  lemma SameHead(u: seq<GameInfo>, v: seq<GameInfo>)
    requires u != [] && v != [] && SortKey(u[0]) == SortKey(v[0])
    requires WithDate(u, SortKey(u[0])) == WithDate(v, SortKey(u[0]))
    ensures u[0] == v[0]
  {
    var a := SortKey(u[0]);
    assert u == [u[0]] + u[1..] && v == [v[0]] + v[1..];
    WithDateCons(u[0], u[1..], a);
    WithDateCons(v[0], v[1..], a);
    assert WithDate(u, a) == [u[0]] + WithDate(u[1..], a);
    assert WithDate(v, a) == [v[0]] + WithDate(v[1..], a);
    assert WithDate(u, a)[0] == u[0] && WithDate(v, a)[0] == v[0];
  }

  /** Equal heads removed, the tails still agree on the records of every date. */
  lemma SameTails(u: seq<GameInfo>, v: seq<GameInfo>)
    requires u != [] && v != [] && u[0] == v[0]
    requires forall k :: WithDate(u, k) == WithDate(v, k)
    ensures forall k :: WithDate(u[1..], k) == WithDate(v[1..], k)
  {
    assert u == [u[0]] + u[1..] && v == [v[0]] + v[1..];
    forall k ensures WithDate(u[1..], k) == WithDate(v[1..], k) {
      WithDateCons(u[0], u[1..], k);
      WithDateCons(v[0], v[1..], k);
      var p := if SortKey(u[0]) == k then [u[0]] else [];
      assert (p + WithDate(u[1..], k))[|p|..] == WithDate(u[1..], k);
      assert (p + WithDate(v[1..], k))[|p|..] == WithDate(v[1..], k);
    }
  }

  /**
   * The insertion sort is THE stable descending sort: any descending sequence that keeps, for every date,
   * the records of that date in input order is equal to it.
   */
  lemma StableSortUnique(s: seq<GameInfo>, t: seq<GameInfo>)
    requires Descending(t)
    requires forall k :: WithDate(t, k) == WithDate(s, k)
    ensures t == SortByDateDesc(s)
  {
    SortDescending(s);
    forall k ensures WithDate(t, k) == WithDate(SortByDateDesc(s), k) {
      SortStable(s, k);
    }
    DescendingDeterminedByDates(t, SortByDateDesc(s));
  }

  lemma SomeNoText(all: seq<Element>)
    ensures (exists i :: 0 <= i < |all| && StampOf(all[i]) == NoText) <==> (exists g :: g in all && StampOf(g) == NoText)
  {
    if exists g :: g in all && StampOf(g) == NoText {
      var g :| g in all && StampOf(g) == NoText;
      var i :| 0 <= i < |all| && all[i] == g;
    }
  }

  /** `search_last_20_added` raises `TypeError` iff some game has an `added_date` child without text. */
  lemma Last20AddedFails(root: Element)
    ensures Last20Added(root).Failure? <==> exists g :: g in FindAll(root, "game") && StampOf(g) == NoText
  {
    var all := FindAll(root, "game");
    assert Last20Added(root).Failure? <==> CollectDated(all).Failure?;
    CollectDatedFails(all);
    SomeNoText(all);
  }

  /**
   * Otherwise it returns at most 20 records, in descending order of `added_date`: the first ones of the stable
   * descending sort of the dated records, and only records the collecting loop kept.
   */
  lemma Last20AddedResult(root: Element)
    requires Last20Added(root).Success?
    ensures var games := CollectDated(FindAll(root, "game")).value;
            var r := Last20Added(root).value;
            && |r| == (if CountStamped(FindAll(root, "game")) < 20 then CountStamped(FindAll(root, "game")) else 20)
            && Descending(r)
            && r == SortByDateDesc(games)[..|r|]
            && multiset(r) <= multiset(games)
  {
    var all := FindAll(root, "game");
    var games := CollectDated(all).value;
    CollectDatedLength(all);
    assert Last20Added(root).value == FirstTwenty(SortByDateDesc(games));
    NewestTwenty(games);
  }

  /** The first 20 of the sorted records: as many as there are up to 20, newest first, and drawn from the input. */
  lemma NewestTwenty(games: seq<GameInfo>)
    ensures var r := FirstTwenty(SortByDateDesc(games));
            && |r| == (if |games| < 20 then |games| else 20)
            && Descending(r)
            && r == SortByDateDesc(games)[..|r|]
            && multiset(r) <= multiset(games)
  {
    var sorted := SortByDateDesc(games);
    SortDescending(games);
    SameLength(sorted, games);
    var r := FirstTwenty(sorted);
    PrefixOf(sorted, |r|);
  }

  lemma SameLength(s: seq<GameInfo>, t: seq<GameInfo>)
    requires multiset(s) == multiset(t)
    ensures |s| == |t|
  {
    assert |s| == |multiset(s)| == |multiset(t)| == |t|;
  }

  /** A prefix of a descending sequence is descending and draws from its records. */
  lemma PrefixOf(s: seq<GameInfo>, n: nat)
    requires n <= |s|
    ensures Descending(s) ==> Descending(s[..n])
    ensures multiset(s[..n]) <= multiset(s)
  {
    assert s == s[..n] + s[n..];
    assert multiset(s) == multiset(s[..n]) + multiset(s[n..]);
  }

  // ----- process_gamelist_files -----

  /** What one parsed document contributes for a search type: `"0"` its favorites, `"1"` its latest 20, anything else nothing. */
  function SearchGames(root: Element, searchType: string): (r: Result<seq<GameInfo>, PyError>)
    ensures searchType != "1" ==> r.Success?
    ensures searchType != "0" && searchType != "1" ==> r == Success([])
    ensures searchType == "1" && r.Success? ==> |r.value| <= 20
    ensures searchType == "0" ==> r == Success(FavoriteGames(root))
    ensures searchType == "1" ==> r == Last20Added(root)
  {
    if searchType == "0" then Success(FavoriteGames(root))
    else if searchType == "1" then
      var latest := Last20Added(root);
      assert latest.Success? ==> |latest.value| <= 20;
      latest
    else Success([])
  }

  /** `games.extend(found)` when neither side raised; otherwise the first exception. */
  function Extend(games: Result<seq<GameInfo>, PyError>, found: Result<seq<GameInfo>, PyError>): (r: Result<seq<GameInfo>, PyError>)
    ensures r.Success? <==> games.Success? && found.Success?
    ensures r.Success? ==> r.value == games.value + found.value
  {
    match games
    case Failure(e) => Failure(e)
    case Success(x) =>
      match found
      case Failure(e) => Failure(e)
      case Success(y) => Success(x + y)
  }

  /**
   * What the file at `path` contributes. `load` stands for `load_xml`: the parsed root, or `None` when `ET.parse`
   * raised `ParseError` (an empty or malformed file), in which case the file is skipped.
   */
  function FileGames(path: string, load: string -> Option<Element>, searchType: string): Result<seq<GameInfo>, PyError> {
    match load(path)
    case None => Success([])
    case Some(root) => SearchGames(root, searchType)
  }

  /** The loop of `process_gamelist_files` over `paths`. */
  function ProcessFiles(paths: seq<string>, load: string -> Option<Element>, searchType: string): Result<seq<GameInfo>, PyError> {
    if paths == [] then Success([])
    else Extend(ProcessFiles(paths[..|paths| - 1], load, searchType), FileGames(paths[|paths| - 1], load, searchType))
  }

  /** `process_gamelist_files(directory, search_type)` on the tree `top` found at `directory`. */
  function ProcessedGames(directory: string, top: Walk.Dir, load: string -> Option<Element>, searchType: string): Result<seq<GameInfo>, PyError> {
    ProcessFiles(Walk.GamelistPaths(directory, top), load, searchType)
  }

  lemma ProcessStep(paths: seq<string>, i: nat, load: string -> Option<Element>, searchType: string)
    requires i < |paths|
    ensures ProcessFiles(paths[..i + 1], load, searchType) == Extend(ProcessFiles(paths[..i], load, searchType), FileGames(paths[i], load, searchType))
  {
    assert paths[..i + 1][..i] == paths[..i];
  }

  lemma {:induction false} ProcessFailureSticks(paths: seq<string>, n: nat, load: string -> Option<Element>, searchType: string)
    requires n <= |paths| && ProcessFiles(paths[..n], load, searchType).Failure?
    ensures ProcessFiles(paths, load, searchType) == Failure(TypeError)
    decreases |paths| - n
  {
    if n < |paths| {
      ProcessStep(paths, n, load, searchType);
      ProcessFailureSticks(paths, n + 1, load, searchType);
    } else {
      assert paths[..n] == paths;
      assert ProcessFiles(paths, load, searchType).error.TypeError?;
    }
  }

  /** `process_gamelist_files`: discovers the gamelists, then extends the result file by file. */
  method ProcessGamelistFiles(directory: string, top: Walk.Dir, load: string -> Option<Element>, searchType: string)
    returns (r: Result<seq<GameInfo>, PyError>)
    ensures r == ProcessedGames(directory, top, load, searchType)
  {
    var games: seq<GameInfo> := [];
    var gamelistFiles := Walk.FindGamelistFiles(directory, top);
    for i := 0 to |gamelistFiles|
      invariant ProcessFiles(gamelistFiles[..i], load, searchType) == Success(games)
    {
      var filePath := gamelistFiles[i];
      ProcessStep(gamelistFiles, i, load, searchType);
      var tree := load(filePath);
      var found: seq<GameInfo> := [];
      if tree.Some? {
        var root := tree.value;
        if searchType == "0" {
          found := SearchFavoriteGames(root);
        } else if searchType == "1" {
          var latest := SearchLast20Added(root);
          if latest.Failure? {
            assert FileGames(filePath, load, searchType) == latest;
            ProcessFailureSticks(gamelistFiles, i + 1, load, searchType);
            assert latest.error.TypeError?;
            return latest;
          }
          found := latest.value;
        }
      }
      assert FileGames(filePath, load, searchType) == Success(found);
      games := games + found;
    }
    assert gamelistFiles[..|gamelistFiles|] == gamelistFiles;
    r := Success(games);
  }

  // ----- properties of process_gamelist_files -----

  lemma ExtendAssociative(a: Result<seq<GameInfo>, PyError>, b: Result<seq<GameInfo>, PyError>, c: Result<seq<GameInfo>, PyError>)
    ensures Extend(Extend(a, b), c) == Extend(a, Extend(b, c))
  {
    if a.Success? && b.Success? && c.Success? {
      assert a.value + b.value + c.value == a.value + (b.value + c.value);
    }
  }

  /** Results are concatenated in discovery order: the games for `a + b` are those for `a` followed by those for `b`. */
  lemma {:induction false} ProcessFilesAppend(a: seq<string>, b: seq<string>, load: string -> Option<Element>, searchType: string)
    ensures ProcessFiles(a + b, load, searchType) == Extend(ProcessFiles(a, load, searchType), ProcessFiles(b, load, searchType))
    decreases |b|
  {
    var pa := ProcessFiles(a, load, searchType);
    if b == [] {
      assert a + b == a;
      if pa.Success? {
        assert pa.value + [] == pa.value;
      }
    } else {
      var init := b[..|b| - 1];
      var last := b[|b| - 1];
      assert (a + b)[..|a + b| - 1] == a + init;
      assert (a + b)[|a + b| - 1] == last;
      ProcessFilesAppend(a, init, load, searchType);
      ExtendAssociative(pa, ProcessFiles(init, load, searchType), FileGames(last, load, searchType));
    }
  }

  /** The paths whose document parsed, in order. */
  function Parsed(paths: seq<string>, load: string -> Option<Element>): (r: seq<string>)
    ensures |r| <= |paths|
  {
    if paths == [] then []
    else Parsed(paths[..|paths| - 1], load) + (if load(paths[|paths| - 1]).Some? then [paths[|paths| - 1]] else [])
  }

  /** `Parsed` keeps exactly the paths whose document parses. */
  lemma {:induction false} ParsedMembers(paths: seq<string>, load: string -> Option<Element>, p: string)
    ensures p in Parsed(paths, load) <==> p in paths && load(p).Some?
  {
    if paths != [] {
      var init := paths[..|paths| - 1];
      ParsedMembers(init, load, p);
      assert paths == init + [paths[|paths| - 1]];
    }
  }

  /** Parsing filters the paths without reordering them: the parsed paths of `a + b` are those of `a`, then those of `b`. */
  lemma {:induction false} ParsedAppend(a: seq<string>, b: seq<string>, load: string -> Option<Element>)
    ensures Parsed(a + b, load) == Parsed(a, load) + Parsed(b, load)
    decreases |b|
  {
    if b == [] {
      assert a + b == a;
    } else {
      var init := b[..|b| - 1];
      assert (a + b)[..|a + b| - 1] == a + init;
      assert (a + b)[|a + b| - 1] == b[|b| - 1];
      ParsedAppend(a, init, load);
    }
  }

  lemma ExtendNothing(r: Result<seq<GameInfo>, PyError>)
    ensures Extend(r, Success([])) == r
  {
    if r.Success? {
      assert r.value + [] == r.value;
    } else {
      assert r.error.TypeError? && Extend(r, Success([])).error.TypeError?;
    }
  }

  /** Files whose parse failed contribute nothing: the result is the one for the parsed files alone. */
  lemma {:induction false} ProcessSkipsUnparsed(paths: seq<string>, load: string -> Option<Element>, searchType: string)
    ensures ProcessFiles(paths, load, searchType) == ProcessFiles(Parsed(paths, load), load, searchType)
  {
    if paths != [] {
      var init := paths[..|paths| - 1];
      var last := paths[|paths| - 1];
      ProcessSkipsUnparsed(init, load, searchType);
      var parsed := Parsed(paths, load);
      if load(last).Some? {
        assert parsed[..|parsed| - 1] == Parsed(init, load) && parsed[|parsed| - 1] == last;
        assert ProcessFiles(parsed, load, searchType) == Extend(ProcessFiles(Parsed(init, load), load, searchType), FileGames(last, load, searchType));
      } else {
        assert parsed == Parsed(init, load);
        ExtendNothing(ProcessFiles(init, load, searchType));
      }
    }
  }

  /** Any search type other than `"0"` and `"1"` yields no games. */
  lemma {:induction false} UnknownSearchTypeYieldsNothing(paths: seq<string>, load: string -> Option<Element>, searchType: string)
    requires searchType != "0" && searchType != "1"
    ensures ProcessFiles(paths, load, searchType) == Success([])
  {
    if paths != [] {
      UnknownSearchTypeYieldsNothing(paths[..|paths| - 1], load, searchType);
      assert FileGames(paths[|paths| - 1], load, searchType) == Success([]);
    }
  }

  /** Favorites never raise. */
  lemma {:induction false} FavoritesNeverFail(paths: seq<string>, load: string -> Option<Element>)
    ensures ProcessFiles(paths, load, "0").Success?
  {
    if paths != [] {
      FavoritesNeverFail(paths[..|paths| - 1], load);
    }
  }

  /** For `"1"` the cap of 20 is per file: the total is bounded by 20 per parsed file, not by 20. */
  lemma {:induction false} LatestCapIsPerFile(paths: seq<string>, load: string -> Option<Element>)
    requires ProcessFiles(paths, load, "1").Success?
    ensures |ProcessFiles(paths, load, "1").value| <= 20 * |Parsed(paths, load)|
  {
    if paths != [] {
      var init := paths[..|paths| - 1];
      LatestCapIsPerFile(init, load);
    }
  }

  /** Two files that each yield their own latest games give both lists, one after the other, uncut and unmerged. */
  lemma LatestNotMerged(p: string, q: string, load: string -> Option<Element>, x: seq<GameInfo>, y: seq<GameInfo>)
    requires load(p).Some? && Last20Added(load(p).value) == Success(x)
    requires load(q).Some? && Last20Added(load(q).value) == Success(y)
    ensures ProcessFiles([p, q], load, "1") == Success(x + y)
  {
    LatestOfFile(p, load, x);
    LatestOfFile(q, load, y);
    TwoFiles(p, q, load, "1");
    assert [] + x == x;
  }

  lemma LatestOfFile(p: string, load: string -> Option<Element>, x: seq<GameInfo>)
    requires load(p).Some? && Last20Added(load(p).value) == Success(x)
    ensures FileGames(p, load, "1") == Success(x)
  {
  }

  lemma TwoFiles(p: string, q: string, load: string -> Option<Element>, searchType: string)
    ensures ProcessFiles([p, q], load, searchType) == Extend(Extend(Success([]), FileGames(p, load, searchType)), FileGames(q, load, searchType))
  {
    var paths := [p, q];
    ProcessStep(paths, 0, load, searchType);
    ProcessStep(paths, 1, load, searchType);
    assert paths[..0] == [] && paths[..2] == paths;
  }
}
