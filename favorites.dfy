/** The favourites page (favorite.js): every match the user starred, across
    all stored records, shown as a card with the highlighted phrases of its
    refined sentence wrapped in `<mark>` and a fold button for the
    transcription. */
module Favorites {
  import opened Records
  import opened JsStrings
  import opened Db

  /** `{questionId: record.id, ...match}`: the owning record's id followed by
      the match's own fields (a match has no `questionId` of its own). */
  datatype Favorite = Favorite(questionId: string, m: Match)

  // ---------------------------------------------------------------------
  // Collecting the favourites

  /** The starred matches of one list, tagged with `id`, in list order. */
  function MatchFavorites(id: string, ms: seq<Match>): seq<Favorite>
    decreases |ms|
  {
    if ms == [] then []
    else MatchFavorites(id, ms[..|ms| - 1]) + if ms[|ms| - 1].isFavorite then [Favorite(id, ms[|ms| - 1])] else []
  }

  /** The record has results with a `matches` array. */
  predicate HasMatches(r: Record)
  {
    r.results.Some? && r.results.value.matches.Some?
  }

  /** The favourites one record contributes. */
  function RecordFavorites(r: Record): seq<Favorite>
  {
    if HasMatches(r) then MatchFavorites(r.id, r.results.value.matches.value) else []
  }

  /** The favourites of all records, in record order and then match order. */
  function FavoritesOf(rs: seq<Record>): seq<Favorite>
    decreases |rs|
  {
    if rs == [] then [] else FavoritesOf(rs[..|rs| - 1]) + RecordFavorites(rs[|rs| - 1])
  }

  /** favorite.js's nested loop over the records and their matches. */
  method CollectFavorites(rs: seq<Record>) returns (favs: seq<Favorite>)
    ensures favs == FavoritesOf(rs)
  {
    favs := [];
    var i := 0;
    while i < |rs|
      invariant 0 <= i <= |rs|
      invariant favs == FavoritesOf(rs[..i])
    {
      var r := rs[i];
      assert rs[..i + 1][..i] == rs[..i];
      if r.results.Some? && r.results.value.matches.Some? {
        var ms := r.results.value.matches.value;
        var j := 0;
        while j < |ms|
          invariant 0 <= j <= |ms|
          invariant favs == FavoritesOf(rs[..i]) + MatchFavorites(r.id, ms[..j])
        {
          assert ms[..j + 1][..j] == ms[..j];
          if ms[j].isFavorite {
            favs := favs + [Favorite(r.id, ms[j])];
          }
          j := j + 1;
        }
        assert ms[..j] == ms;
      }
      i := i + 1;
    }
    assert rs[..i] == rs;
  }

  /** A favourite of the list is a favourite of one of its records, and
      every favourite of a record is one of the list's. */
  lemma {:induction false} FavoritesMembers(rs: seq<Record>)
    ensures forall f :: f in FavoritesOf(rs) <==> exists j :: 0 <= j < |rs| && f in RecordFavorites(rs[j])
    decreases |rs|
  {
    if rs != [] {
      var front := rs[..|rs| - 1];
      FavoritesMembers(front);
      forall f
        ensures f in FavoritesOf(rs) <==> exists j :: 0 <= j < |rs| && f in RecordFavorites(rs[j])
      {
        if f in FavoritesOf(front) {
          var j :| 0 <= j < |front| && f in RecordFavorites(front[j]);
          assert rs[j] == front[j];
        }
        if j :| 0 <= j < |rs| && f in RecordFavorites(rs[j]) {
          if j < |front| {
            assert rs[j] == front[j];
          }
        }
      }
    }
  }

  /** `m` is one of the record's matches. */
  predicate InMatches(r: Record, m: Match)
  {
    HasMatches(r) && m in r.results.value.matches.value
  }

  lemma {:induction false} MatchFavoritesSound(id: string, ms: seq<Match>)
    ensures forall f :: f in MatchFavorites(id, ms) ==> f.questionId == id && f.m.isFavorite && f.m in ms
    decreases |ms|
  {
    if ms != [] {
      MatchFavoritesSound(id, ms[..|ms| - 1]);
    }
  }

  lemma {:induction false} MatchFavoritesComplete(id: string, ms: seq<Match>, k: int)
    requires 0 <= k < |ms| && ms[k].isFavorite
    ensures Favorite(id, ms[k]) in MatchFavorites(id, ms)
    decreases |ms|
  {
    if k < |ms| - 1 {
      MatchFavoritesComplete(id, ms[..|ms| - 1], k);
    }
  }

  /** Every favourite is a starred match of a record, tagged with that
      record's id. */
  lemma {:induction false} FavoritesSound(rs: seq<Record>)
    ensures forall f :: f in FavoritesOf(rs) ==>
              f.m.isFavorite && exists j :: 0 <= j < |rs| && rs[j].id == f.questionId && InMatches(rs[j], f.m)
    decreases |rs|
  {
    if rs != [] {
      var front := rs[..|rs| - 1];
      var r := rs[|rs| - 1];
      FavoritesSound(front);
      if HasMatches(r) {
        MatchFavoritesSound(r.id, r.results.value.matches.value);
      }
      forall f | f in FavoritesOf(rs)
        ensures f.m.isFavorite && exists j :: 0 <= j < |rs| && rs[j].id == f.questionId && InMatches(rs[j], f.m)
      {
        if f in FavoritesOf(front) {
          var j :| 0 <= j < |front| && front[j].id == f.questionId && InMatches(front[j], f.m);
          assert rs[j] == front[j];
        } else {
          assert f in RecordFavorites(r);
          assert rs[|rs| - 1] == r;
        }
      }
    }
  }

  /** Every starred match of every record with matches is a favourite. */
  lemma {:induction false} FavoritesComplete(rs: seq<Record>, j: int, k: int)
    requires 0 <= j < |rs| && HasMatches(rs[j])
    requires 0 <= k < |rs[j].results.value.matches.value| && rs[j].results.value.matches.value[k].isFavorite
    ensures Favorite(rs[j].id, rs[j].results.value.matches.value[k]) in FavoritesOf(rs)
    decreases |rs|
  {
    if j < |rs| - 1 {
      FavoritesComplete(rs[..|rs| - 1], j, k);
    } else {
      MatchFavoritesComplete(rs[j].id, rs[j].results.value.matches.value, k);
    }
  }

  /** Order: the favourites of consecutive runs of records are concatenated. */
  lemma {:induction false} FavoritesConcat(a: seq<Record>, b: seq<Record>)
    ensures FavoritesOf(a + b) == FavoritesOf(a) + FavoritesOf(b)
    decreases |b|
  {
    if b == [] {
      assert a + b == a;
    } else {
      assert (a + b)[..|a + b| - 1] == a + b[..|b| - 1];
      FavoritesConcat(a, b[..|b| - 1]);
    }
  }

  /** Order within a record: the favourites of consecutive runs of matches
      are concatenated. */
  lemma {:induction false} MatchFavoritesConcat(id: string, a: seq<Match>, b: seq<Match>)
    ensures MatchFavorites(id, a + b) == MatchFavorites(id, a) + MatchFavorites(id, b)
    decreases |b|
  {
    if b == [] {
      assert a + b == a;
    } else {
      assert (a + b)[..|a + b| - 1] == a + b[..|b| - 1];
      MatchFavoritesConcat(id, a, b[..|b| - 1]);
    }
  }

  /** A record without results, or whose results have no matches, can be
      dropped without changing the favourites. */
  lemma {:induction false} RecordWithoutMatches(a: seq<Record>, r: Record, b: seq<Record>)
    requires !HasMatches(r)
    ensures FavoritesOf(a + [r] + b) == FavoritesOf(a + b)
  {
    var ar := a + [r];
    FavoritesConcat(ar, b);
    FavoritesConcat(a, [r]);
    FavoritesConcat(a, b);
    assert [r][..0] == [];
    assert FavoritesOf([r]) == [];
    assert FavoritesOf(ar) == FavoritesOf(a);
  }

  /** The list is empty exactly when no record has a starred match. */
  lemma FavoritesEmpty(rs: seq<Record>)
    ensures FavoritesOf(rs) == [] <==>
            forall j, k :: 0 <= j < |rs| && HasMatches(rs[j]) && 0 <= k < |rs[j].results.value.matches.value|
                           ==> !rs[j].results.value.matches.value[k].isFavorite
  {
    FavoritesSound(rs);
    forall j, k | 0 <= j < |rs| && HasMatches(rs[j]) && 0 <= k < |rs[j].results.value.matches.value|
                  && rs[j].results.value.matches.value[k].isFavorite
      ensures FavoritesOf(rs) != []
    {
      FavoritesComplete(rs, j, k);
    }
    if FavoritesOf(rs) != [] {
      var f := FavoritesOf(rs)[0];
      assert f in FavoritesOf(rs);
      var j :| 0 <= j < |rs| && rs[j].id == f.questionId && InMatches(rs[j], f.m);
      var ms := rs[j].results.value.matches.value;
      var k :| 0 <= k < |ms| && ms[k] == f.m;
    }
  }

  /** Record A with one starred and one unstarred match, then record B with
      none starred: the list holds exactly A's starred match, tagged "A". */
  lemma TwoRecordsExample(starred: Match, plain: Match, other: Match)
    requires starred.isFavorite && !plain.isFavorite && !other.isFavorite
    ensures FavoritesOf([Record("A", None, Some(Results("t", "r", Some([starred, plain])))),
                         Record("B", None, Some(Results("t", "r", Some([other]))))])
            == [Favorite("A", starred)]
  {
    var a := Record("A", None, Some(Results("t", "r", Some([starred, plain]))));
    var b := Record("B", None, Some(Results("t", "r", Some([other]))));
    assert [a, b][..1] == [a];
    assert [a][..0] == [];
    assert [starred, plain][..1] == [starred];
    assert [starred][..0] == [];
    assert [other][..0] == [];
    assert MatchFavorites("A", [starred]) == [Favorite("A", starred)];
    assert MatchFavorites("A", [starred, plain]) == [Favorite("A", starred)];
    assert MatchFavorites("B", [other]) == [];
    assert FavoritesOf([a]) == [Favorite("A", starred)];
  }

  // ---------------------------------------------------------------------
  // Highlights

  /** `<mark>${text}</mark>`. */
  function Mark(text: string): string
  {
    "<mark>" + text + "</mark>"
  }

  /** The refined sentence after the highlights, applied in order, each to
      the string the previous ones produced. */
  function Highlighted(s: string, hs: seq<Highlight>): (r: string)
    ensures hs == [] ==> r == s
    ensures |hs| == 1 ==> r == Replace(s, hs[0].text, Mark(hs[0].text))
    decreases |hs|
  {
    if hs == [] then s
    else
      var t := hs[|hs| - 1].text;
      assert |hs| == 1 ==> hs[..|hs| - 1] == [];
      Replace(Highlighted(s, hs[..|hs| - 1]), t, Mark(t))
  }

  /** favorite.js's loop over `fav.highlights` (None: no highlights member). */
  method ApplyHighlights(s: string, hs: Option<seq<Highlight>>) returns (html: string)
    ensures hs.None? ==> html == s
    ensures hs.Some? ==> html == Highlighted(s, hs.value)
  {
    html := s;
    if hs.Some? {
      var i := 0;
      while i < |hs.value|
        invariant 0 <= i <= |hs.value|
        invariant html == Highlighted(s, hs.value[..i])
      {
        assert hs.value[..i + 1][..i] == hs.value[..i];
        var t := hs.value[i].text;
        html := Replace(html, t, Mark(t));
        i := i + 1;
      }
      assert hs.value[..i] == hs.value;
    }
  }

  /** Applying highlights in two runs is applying them all in order. */
  lemma {:induction false} HighlightedConcat(s: string, a: seq<Highlight>, b: seq<Highlight>)
    ensures Highlighted(s, a + b) == Highlighted(Highlighted(s, a), b)
    decreases |b|
  {
    if b == [] {
      assert a + b == a;
    } else {
      assert (a + b)[..|a + b| - 1] == a + b[..|b| - 1];
      HighlightedConcat(s, a, b[..|b| - 1]);
    }
  }

  /** A highlight wraps the first occurrence of its text, and only that one,
      when the text has no `$` (which `replace` would expand). */
  lemma MarkFirst(s: string, h: Highlight, i: int)
    requires '$' !in h.text
    requires OccursAt(s, h.text, i) && forall j :: 0 <= j < i ==> !OccursAt(s, h.text, j)
    ensures Highlighted(s, [h]) == s[..i] + Mark(h.text) + s[i + |h.text|..]
    ensures OccursAt(Highlighted(s, [h]), Mark(h.text), i)
  {
    assert [h][..0] == [];
    assert '$' !in Mark(h.text) by {
      assert Mark(h.text) == "<mark>" + h.text + "</mark>";
    }
    assert OccursAt(s, h.text, i);
    var r := s[..i] + Mark(h.text) + s[i + |h.text|..];
    assert r[i..i + |Mark(h.text)|] == Mark(h.text);
  }

  /** A highlight whose text does not occur leaves the sentence as it is. */
  lemma MarkAbsent(s: string, h: Highlight)
    requires forall j :: !OccursAt(s, h.text, j)
    ensures Highlighted(s, [h]) == s
  {
    assert [h][..0] == [];
  }

  // ---------------------------------------------------------------------
  // The rendered list and the fold button

  /** One favourite's card: the link target's question id, the (folded)
      transcription and the refined sentence with its marks. */
  datatype Card = Card(questionId: string, transcription: string, refinedHtml: string)

  /** What the container shows. */
  datatype View =
    | NoFavorites          // "You haven't favorited any sentences yet."
    | Cards(cards: seq<Card>)

  /** The page after load. `Loading` is the store's promise that never settles. */
  datatype Page = Loading | LoadError | Shown(view: View)

  function CardOf(f: Favorite): Card
  {
    Card(f.questionId, f.m.transcription,
         if f.m.highlights.Some? then Highlighted(f.m.refinedVersion, f.m.highlights.value) else f.m.refinedVersion)
  }

  /** The list for the given records: the empty-list message exactly when
      there is no favourite, otherwise one card per favourite, in order. */
  method Render(all: seq<Record>) returns (view: View)
    ensures view.NoFavorites? <==> FavoritesOf(all) == []
    ensures view.Cards? ==> |view.cards| == |FavoritesOf(all)|
    ensures view.Cards? ==> forall i :: 0 <= i < |view.cards| ==> view.cards[i] == CardOf(FavoritesOf(all)[i])
  {
    var favs := CollectFavorites(all);
    if |favs| == 0 {
      return NoFavorites;
    }
    var cards: seq<Card> := [];
    var i := 0;
    while i < |favs|
      invariant 0 <= i <= |favs| && |cards| == i
      invariant forall j :: 0 <= j < i ==> cards[j] == CardOf(favs[j])
    {
      var f := favs[i];
      var html := ApplyHighlights(f.m.refinedVersion, f.m.highlights);
      cards := cards + [Card(f.questionId, f.m.transcription, html)];
      i := i + 1;
    }
    view := Cards(cards);
  }

  /** `rs` is one order of the store's records, each exactly once. */
  ghost predicate Lists(m: Store, rs: seq<Record>)
  {
    |rs| == |m| && forall r :: r in rs <==> r.id in m && m[r.id] == r
  }

  /** `view` is what favorite.js renders for the records `rs`, in that order. */
  ghost predicate Shows(view: View, rs: seq<Record>)
  {
    && (view.NoFavorites? <==> FavoritesOf(rs) == [])
    && (view.Cards? ==>
          |view.cards| == |FavoritesOf(rs)| &&
          forall i :: 0 <= i < |view.cards| ==> view.cards[i] == CardOf(FavoritesOf(rs)[i]))
  }

  /** The page load: `getAllData`, then the list, or the error message when
      the request fails. */
  method LoadPage(store: RecordStore, openOk: bool, getOk: bool) returns (page: Page)
    requires store.Valid()
    modifies store
    ensures store.Valid() && store.records == old(store.records)
    ensures page.Loading? <==> !store.handleOpen
    ensures page.LoadError? <==> store.handleOpen && !getOk
    ensures page == Shown(NoFavorites) ==> store.handleOpen && getOk
    ensures page.Shown? && page.view.Cards? ==> |page.view.cards| >= 1
    ensures page.Shown? ==>
              (page.view.NoFavorites? <==> forall k :: k in store.records ==> RecordFavorites(store.records[k]) == [])
    ensures page.Shown? && page.view.Cards? ==>
              forall c :: c in page.view.cards <==>
                exists k, f :: k in store.records && f in RecordFavorites(store.records[k]) && c == CardOf(f)
    ensures store.handleOpen == (old(store.handleOpen) || openOk)
    ensures page.Shown? ==> exists rs :: Lists(store.records, rs) && Shows(page.view, rs)
  {
    var reply := store.GetAll(openOk, getOk);
    match reply {
      case Pending => page := Loading;
      case Rejected => page := LoadError;
      case Resolved(all) =>
        var view := Render(all);
        StoredFavorites(store.records, all);
        if view.Cards? {
          StoredCards(store.records, all, view.cards);
        }
        assert Lists(store.records, all) && Shows(view, all);
        page := Shown(view);
    }
  }

  /** The cards rendered from the records `getAll` returns are the cards of
      the stored records' favourites. */
  lemma StoredCards(m: Store, all: seq<Record>, cards: seq<Card>)
    requires KeyedById(m)
    requires forall r :: r in all <==> r.id in m && m[r.id] == r
    requires |cards| == |FavoritesOf(all)|
    requires forall i :: 0 <= i < |cards| ==> cards[i] == CardOf(FavoritesOf(all)[i])
    ensures forall c :: c in cards <==> exists k, f :: k in m && f in RecordFavorites(m[k]) && c == CardOf(f)
  {
    var favs := FavoritesOf(all);
    StoredFavorites(m, all);
    forall c
      ensures c in cards <==> exists k, f :: k in m && f in RecordFavorites(m[k]) && c == CardOf(f)
    {
      if c in cards {
        var i :| 0 <= i < |cards| && cards[i] == c;
        assert favs[i] in favs;
      }
      if k, f :| k in m && f in RecordFavorites(m[k]) && c == CardOf(f) {
        assert f in favs;
        var i :| 0 <= i < |favs| && favs[i] == f;
        assert cards[i] == c;
      }
    }
  }

  /** The favourites of the records `getAll` returns are those of the stored
      records, whatever order the records come in. */
  lemma StoredFavorites(m: Store, all: seq<Record>)
    requires KeyedById(m)
    requires forall r :: r in all <==> r.id in m && m[r.id] == r
    ensures forall f :: f in FavoritesOf(all) <==> exists k :: k in m && f in RecordFavorites(m[k])
    ensures FavoritesOf(all) == [] <==> forall k :: k in m ==> RecordFavorites(m[k]) == []
  {
    FavoritesMembers(all);
    forall f
      ensures f in FavoritesOf(all) <==> exists k :: k in m && f in RecordFavorites(m[k])
    {
      if f in FavoritesOf(all) {
        var j :| 0 <= j < |all| && f in RecordFavorites(all[j]);
        assert all[j] in all;
      }
      if k :| k in m && f in RecordFavorites(m[k]) {
        assert m[k] in all;
        var j :| 0 <= j < |all| && all[j] == m[k];
      }
    }
    if FavoritesOf(all) != [] {
      assert FavoritesOf(all)[0] in FavoritesOf(all);
    }
    forall k | k in m && RecordFavorites(m[k]) != []
      ensures FavoritesOf(all) != []
    {
      var f := RecordFavorites(m[k])[0];
      assert f in RecordFavorites(m[k]);
      assert f in FavoritesOf(all);
    }
  }

  /** The fold button's glyph for a transcription display. */
  function Glyph(display: string): string
  {
    if display == "none" then "˅" else "˄"
  }

  /** The transcription's display after a click on the fold button. */
  function FoldNext(display: string): string
  {
    if display == "none" then "block" else "none"
  }

  /** A click shows a folded transcription and folds any other, so the
      display is always one of the two, and two clicks restore it. */
  lemma FoldTwice(display: string)
    ensures FoldNext(display) == "none" || FoldNext(display) == "block"
    ensures FoldNext(display) != display || display !in {"none", "block"}
    ensures display == "none" || display == "block" ==> FoldNext(FoldNext(display)) == display
  {
  }

  /** One card's fold state: the transcription's display style and the
      button's glyph. */
  class MatchCard {
    var display: string
    var glyph: string

    ghost predicate Valid()
      reads this
    {
      glyph == Glyph(display) && (display == "none" || display == "block")
    }

    /** A rendered card: transcription hidden, down glyph. */
    constructor ()
      ensures Valid() && display == "none" && glyph == "˅"
    {
      display := "none";
      glyph := "˅";
    }

    /** A click on the card's fold button. */
    method ClickFold()
      requires Valid()
      modifies this
      ensures Valid()
      ensures display == FoldNext(old(display)) && display != old(display)
    {
      if display == "none" {
        display := "block";
        glyph := "˄";
      } else {
        display := "none";
        glyph := "˅";
      }
    }
  }

  /** Two clicks on a card leave it as it was. */
  method ClickTwice(card: MatchCard)
    requires card.Valid()
    modifies card
    ensures card.Valid() && card.display == old(card.display) && card.glyph == old(card.glyph)
  {
    card.ClickFold();
    card.ClickFold();
  }
}
