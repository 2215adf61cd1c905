/**
 * The episode lookup `GET /api/episodes/anime/:animeId`: a read-only query
 * over the episode rows (`reszek`) that keeps the rows of one anime, orders
 * them by `sorrend` ascending and answers 404 when there are none.
 */
module EpisodeController {
  import opened Http

  /** One row of the `reszek` table. */
  datatype Episode = Episode(id: nat, animeId: int, sorrend: int, resz: string, lathatosag: bool)

  const NoEpisodesError := "Nem található részek ehhez az animéhez"

  /** Ascending by `sorrend`; rows with equal `sorrend` may come in any order. */
  predicate SortedBySorrend(s: seq<Episode>) {
    forall i, j :: 0 <= i < j < |s| ==> s[i].sorrend <= s[j].sorrend
  }

  /** The `where: { anime_id: animeId }` clause: every row of that anime, with its multiplicity. */
  function OfAnime(rows: seq<Episode>, animeId: int): (r: seq<Episode>)
    ensures forall e :: e in r ==> e.animeId == animeId
    ensures forall e :: multiset(r)[e] == if e.animeId == animeId then multiset(rows)[e] else 0
  {
    if rows == [] then []
    else
      assert rows == [rows[0]] + rows[1..];
      var rest := OfAnime(rows[1..], animeId);
      if rows[0].animeId == animeId then [rows[0]] + rest else rest
  }

  /** Puts `e` into a list already ordered by `sorrend`. */
  function Insert(e: Episode, s: seq<Episode>): (r: seq<Episode>)
    requires SortedBySorrend(s)
    ensures SortedBySorrend(r)
    ensures multiset(r) == multiset(s) + multiset{e}
    ensures |r| == |s| + 1
    ensures forall x :: x in r ==> x == e || x in s
  {
    if s == [] || e.sorrend <= s[0].sorrend then
      SortedCons(e, s);
      [e] + s
    else
      assert s == [s[0]] + s[1..];
      var rest := Insert(e, s[1..]);
      SortedCons(s[0], rest);
      [s[0]] + rest
  }

  /** A row no later than every row of a sorted list can go in front of it. */
  lemma SortedCons(h: Episode, s: seq<Episode>)
    requires SortedBySorrend(s)
    requires forall x :: x in s ==> h.sorrend <= x.sorrend
    ensures SortedBySorrend([h] + s)
  {
  }

  /** The `order: [['sorrend', 'ASC']]` clause. */
  function SortBySorrend(s: seq<Episode>): (r: seq<Episode>)
    ensures SortedBySorrend(r)
    ensures multiset(r) == multiset(s)
  {
    if s == [] then []
    else
      assert s == [s[0]] + s[1..];
      Insert(s[0], SortBySorrend(s[1..]))
  }

  /**
   * The handler: 404 with `success: false` exactly when no row belongs to the
   * anime; otherwise 200 with every row of that anime, and only those, ordered
   * by `sorrend`, and a `count` equal to the number of rows returned.
   */
  function GetEpisodesByAnimeId(rows: seq<Episode>, animeId: int): (r: Response<Episode>)
    ensures r.status == NotFound <==> forall e :: e in rows ==> e.animeId != animeId
    ensures r.status == NotFound ==> r.body == Error(NoEpisodesError) && !r.body.Success()
    ensures r.status != NotFound ==>
      && r.status == OK
      && r.body.Items?
      && r.body.count == |r.body.items| > 0
      && SortedBySorrend(r.body.items)
      && (forall e :: e in r.body.items ==> e.animeId == animeId)
      && (forall e :: multiset(r.body.items)[e] == if e.animeId == animeId then multiset(rows)[e] else 0)
  {
    var episodes := SortBySorrend(OfAnime(rows, animeId));
    if |episodes| == 0 then
      assert forall e :: e in rows ==> e.animeId != animeId by {
        forall e | e in rows ensures e.animeId != animeId {
          assert multiset(rows)[e] > 0 && multiset(episodes)[e] == 0;
        }
      }
      Response(NotFound, Error(NoEpisodesError))
    else
      assert episodes[0] in multiset(episodes);
      Response(OK, Items(|episodes|, episodes))
  }

  /** Every row of the anime appears in a successful answer: no limit and no offset apply. */
  lemma EveryEpisodeReturned(rows: seq<Episode>, animeId: int, e: Episode)
    requires e in rows && e.animeId == animeId
    ensures GetEpisodesByAnimeId(rows, animeId).status == OK
    ensures e in GetEpisodesByAnimeId(rows, animeId).body.items
  {
  }

  /** A successful answer returns exactly as many rows as the table holds for the anime. */
  lemma CountIsNumberOfEpisodes(rows: seq<Episode>, animeId: int)
    requires GetEpisodesByAnimeId(rows, animeId).status == OK
    ensures GetEpisodesByAnimeId(rows, animeId).body.count == |OfAnime(rows, animeId)|
  {
  }
}
