/** `NyboligScraper.scrape_data_nybolig`: for each page 1..num_pages, every
    tile of the page becomes one row of eight columns; rows priced at
    500000 or more are kept and saved under a name chosen from the
    optional arguments. Fetching a page is the parameter `site`, which
    gives the tiles found at a URL. */
module Scraper {
  import opened Outcome
  import opened PyStr
  import opened Tile

  const SiteUrl: String := "https://www.nybolig.dk/til-salg"
  const PageQuery: String := "?page="
  const MinPrice: nat := 500000

  // ---------------------------------------------------------------------
  // Page URLs

  /** The listing index, for all listings or for one property type. */
  function BaseUrl(propertyType: Option<String>): String {
    match propertyType
    case None => SiteUrl
    case Some(t) => SiteUrl + "/" + t
  }

  /** Without a type the index is the site's listing URL; with a type it
      is that URL, "/" and the type, so different types give different
      indexes and none of them is the untyped one. */
  lemma BaseUrlOfType(t: String, u: String, page: nat)
    ensures BaseUrl(None) == "https://www.nybolig.dk/til-salg"
    ensures PageUrl(BaseUrl(None), page) == "https://www.nybolig.dk/til-salg?page=" + DecimalString(page)
    ensures PageUrl(BaseUrl(Some(t)), page) == "https://www.nybolig.dk/til-salg/" + t + "?page=" + DecimalString(page)
    ensures BaseUrl(Some(t)) == BaseUrl(Some(u)) ==> t == u
    ensures BaseUrl(Some(t)) != BaseUrl(None)
  {
    var a, b := BaseUrl(Some(t)), BaseUrl(Some(u));
    assert a[..|SiteUrl| + 1] == SiteUrl + "/";
    if a == b {
      assert t == a[|SiteUrl| + 1..] == b[|SiteUrl| + 1..] == u;
    }
  }

  /** `f'{url}?page={page}'` */
  function PageUrl(base: String, page: nat): String {
    base + PageQuery + DecimalString(page)
  }

  /** The URLs the run fetches, one per page of `range(1, num_pages + 1)`:
      none when `num_pages` is not positive, else pages 1 to `num_pages`
      in increasing order. */
  function PageUrls(base: String, numPages: int): (urls: seq<String>)
    ensures |urls| == if numPages <= 0 then 0 else numPages
    ensures forall i :: 0 <= i < |urls| ==> urls[i] == PageUrl(base, i + 1)
    decreases numPages
  {
    if numPages <= 0 then [] else PageUrls(base, numPages - 1) + [PageUrl(base, numPages)]
  }

  /** The page number can be read back from the end of its URL. */
  lemma PageNumberRoundTrip(base: String, page: nat)
    ensures |PageUrl(base, page)| > |base| + |PageQuery|
    ensures ParseInt(PageUrl(base, page)[|base| + |PageQuery|..]) == Success(page)
  {
    assert PageUrl(base, page)[|base| + |PageQuery|..] == DecimalString(page);
    ParseDecimalString(page);
  }

  /** No page is fetched twice: distinct pages have distinct URLs. */
  lemma PageUrlsDistinct(base: String, numPages: int, i: nat, j: nat)
    requires i < j < |PageUrls(base, numPages)|
    ensures PageUrls(base, numPages)[i] != PageUrls(base, numPages)[j]
  {
    PageNumberRoundTrip(base, i + 1);
    PageNumberRoundTrip(base, j + 1);
  }

  /** Reading back the page numbers of the fetched URLs gives 1, 2, ...,
      `num_pages`: every page once, in increasing order. */
  lemma PageNumbersInOrder(base: String, numPages: int)
    ensures var urls := PageUrls(base, numPages);
            forall i :: 0 <= i < |urls| ==>
              |urls[i]| > |base| + |PageQuery| && ParseInt(urls[i][|base| + |PageQuery|..]) == Success(i + 1)
  {
    var urls := PageUrls(base, numPages);
    forall i | 0 <= i < |urls|
      ensures |urls[i]| > |base| + |PageQuery| && ParseInt(urls[i][|base| + |PageQuery|..]) == Success(i + 1)
    {
      PageNumberRoundTrip(base, i + 1);
    }
  }

  /** Every tile of the given pages, page after page, in document order. */
  function Fetched(site: String -> seq<Tile>, urls: seq<String>): seq<Tile> {
    if urls == [] then [] else Fetched(site, urls[..|urls| - 1]) + site(urls[|urls| - 1])
  }

  /** Fetching more pages only adds tiles after those already fetched. */
  lemma {:induction false} FetchedPrefix(site: String -> seq<Tile>, a: seq<String>, b: seq<String>)
    requires a <= b
    ensures Fetched(site, a) <= Fetched(site, b)
    decreases |b|
  {
    if |a| < |b| {
      var front := b[..|b| - 1];
      assert a <= front;
      FetchedPrefix(site, a, front);
    } else {
      assert a == b;
    }
  }

  // ---------------------------------------------------------------------
  // All tiles; the first exception ends the run

  /** Steps run in order: the exception of the first step that raises, or
      the values of all of them. */
  function Collect<T>(rs: seq<Result<T>>): Result<seq<T>>
    decreases |rs|
  {
    if rs == [] then Success([])
    else
      var front :- Collect(rs[..|rs| - 1]);
      var last :- rs[|rs| - 1];
      Success(front + [last])
  }

  /** `Collect` succeeds exactly when every step does, and then gives the
      steps' values in order. */
  lemma {:induction false} CollectValues<T>(rs: seq<Result<T>>)
    ensures Collect(rs).Success? <==> forall i :: 0 <= i < |rs| ==> rs[i].Success?
    ensures Collect(rs).Success? ==>
              && |Collect(rs).value| == |rs|
              && forall i :: 0 <= i < |rs| ==> rs[i] == Success(Collect(rs).value[i])
    decreases |rs|
  {
    if rs != [] {
      var front := rs[..|rs| - 1];
      CollectValues(front);
      if Collect(front).Failure? {
        var k :| 0 <= k < |front| && front[k].Failure?;
        assert rs[k] == front[k];
      } else if rs[|rs| - 1].Success? {
        var values := Collect(rs).value;
        assert values == Collect(front).value + [rs[|rs| - 1].value];
        forall i | 0 <= i < |rs|
          ensures rs[i] == Success(values[i])
        {
          if i < |front| {
            assert rs[i] == front[i];
          }
        }
      }
    }
  }

  /** One more step: a failure so far stays, otherwise the new step either
      raises or adds its value at the end. */
  lemma CollectSnoc<T>(rs: seq<Result<T>>, x: Result<T>)
    ensures Collect(rs).Failure? ==> Collect(rs + [x]) == Collect(rs)
    ensures Collect(rs).Success? && x.Failure? ==> Collect(rs + [x]) == Failure(x.error)
    ensures Collect(rs).Success? && x.Success? ==> Collect(rs + [x]) == Success(Collect(rs).value + [x.value])
  {
    assert (rs + [x])[..|rs|] == rs;
  }

  /** Once a prefix of the steps raises, later steps change nothing. */
  lemma {:induction false} CollectPrefixFailure<T>(a: seq<Result<T>>, b: seq<Result<T>>)
    requires a <= b && Collect(a).Failure?
    ensures Collect(b) == Collect(a)
    decreases |b|
  {
    if |b| > |a| {
      var front := b[..|b| - 1];
      assert a <= front;
      CollectPrefixFailure(a, front);
    } else {
      assert a == b;
    }
  }

  /** Steps run back to back give their values back to back. */
  lemma {:induction false} CollectAppend<T>(a: seq<Result<T>>, b: seq<Result<T>>)
    requires Collect(a + b).Success?
    ensures Collect(a).Success? && Collect(b).Success?
    ensures Collect(a + b).value == Collect(a).value + Collect(b).value
    decreases |b|
  {
    if b == [] {
      assert a + b == a;
    } else {
      var b' := b[..|b| - 1];
      assert (a + b)[..|a + b| - 1] == a + b';
      assert (a + b)[|a + b| - 1] == b[|b| - 1];
      CollectAppend(a, b');
    }
  }

  /** What parsing each tile gives, tile by tile. */
  function Outcomes(tiles: seq<Tile>): seq<Result<Listing>> {
    seq(|tiles|, i requires 0 <= i < |tiles| => ParseTile(tiles[i]))
  }

  lemma OutcomesAppend(a: seq<Tile>, b: seq<Tile>)
    ensures Outcomes(a + b) == Outcomes(a) + Outcomes(b)
  {
    assert forall i :: 0 <= i < |a| ==> (a + b)[i] == a[i];
    assert forall i :: 0 <= i < |b| ==> (a + b)[|a| + i] == b[i];
  }

  /** The tiles parsed in order, as the scraping loop does: the first tile
      that raises ends the run with its exception; otherwise there is one
      row per tile. */
  function ParseAll(tiles: seq<Tile>): Result<seq<Listing>> {
    Collect(Outcomes(tiles))
  }

  /** The run succeeds exactly when every tile parses, and then row `i` is
      the row of tile `i`. */
  lemma ParseAllRows(tiles: seq<Tile>)
    ensures ParseAll(tiles).Success? <==> forall i :: 0 <= i < |tiles| ==> ParseTile(tiles[i]).Success?
    ensures ParseAll(tiles).Success? ==>
              && |ParseAll(tiles).value| == |tiles|
              && forall i :: 0 <= i < |tiles| ==> ParseTile(tiles[i]) == Success(ParseAll(tiles).value[i])
  {
    var rs := Outcomes(tiles);
    assert forall i :: 0 <= i < |tiles| ==> rs[i] == ParseTile(tiles[i]);
    CollectValues(rs);
  }

  /** When some tile raises, the run fails with the exception of the first
      such tile. */
  lemma ParseAllFirstFailure(tiles: seq<Tile>, k: nat)
    requires k < |tiles| && ParseTile(tiles[k]).Failure?
    requires forall i :: 0 <= i < k ==> ParseTile(tiles[i]).Success?
    ensures ParseAll(tiles) == Failure(ParseTile(tiles[k]).error)
  {
    var rs := Outcomes(tiles);
    CollectValues(rs[..k]);
    CollectSnoc(rs[..k], rs[k]);
    assert rs[..k] + [rs[k]] == rs[..k + 1];
    CollectPrefixFailure(rs[..k + 1], rs);
  }

  /** Once a prefix of the tiles raises, later tiles change nothing. */
  lemma ParseAllPrefixFailure(a: seq<Tile>, b: seq<Tile>)
    requires a <= b && ParseAll(a).Failure?
    ensures ParseAll(b) == ParseAll(a)
  {
    OutcomesAppend(a, b[|a|..]);
    assert a + b[|a|..] == b;
    CollectPrefixFailure(Outcomes(a), Outcomes(b));
  }

  /** Parsing two runs of tiles back to back gives their rows back to back. */
  lemma ParseAllAppend(a: seq<Tile>, b: seq<Tile>)
    requires ParseAll(a + b).Success?
    ensures ParseAll(a).Success? && ParseAll(b).Success?
    ensures ParseAll(a + b).value == ParseAll(a).value + ParseAll(b).value
  {
    OutcomesAppend(a, b);
    CollectAppend(Outcomes(a), Outcomes(b));
  }

  /** Parsing one more tile: an earlier failure stays, otherwise the tile
      either raises or adds its row at the end. */
  lemma ParseAllSnoc(before: seq<Tile>, tile: Tile)
    ensures ParseAll(before).Failure? ==> ParseAll(before + [tile]) == ParseAll(before)
    ensures ParseAll(before).Success? && ParseTile(tile).Failure? ==>
              ParseAll(before + [tile]) == Failure(ParseTile(tile).error)
    ensures ParseAll(before).Success? && ParseTile(tile).Success? ==>
              ParseAll(before + [tile]) == Success(ParseAll(before).value + [ParseTile(tile).value])
  {
    OutcomesAppend(before, [tile]);
    assert Outcomes([tile]) == [ParseTile(tile)];
    CollectSnoc(Outcomes(before), ParseTile(tile));
  }

  // ---------------------------------------------------------------------
  // The eight columns, the price filter and the file name

  /** The dictionary of eight column lists handed to `pd.DataFrame`. */
  datatype Columns = Columns(
    address: seq<Option<String>>,
    postcode: seq<Option<String>>,
    city: seq<Option<String>>,
    price: seq<Option<nat>>,
    kind: seq<Option<String>>,
    rooms: seq<Option<nat>>,
    size1: seq<Option<nat>>,
    size2: seq<Option<nat>>)

  /** `pd.DataFrame` raises unless every column has the same length. */
  predicate Aligned(data: Columns) {
    && |data.postcode| == |data.address| && |data.city| == |data.address|
    && |data.price| == |data.address| && |data.kind| == |data.address|
    && |data.rooms| == |data.address| && |data.size1| == |data.address|
    && |data.size2| == |data.address|
  }

  /** `pd.DataFrame(data)`: row `k` holds element `k` of every column. */
  function Frame(data: Columns): seq<Listing>
    requires Aligned(data)
  {
    seq(|data.address|, k requires 0 <= k < |data.address| =>
      Listing(data.address[k], data.postcode[k], data.city[k], data.price[k],
              data.kind[k], data.rooms[k], data.size1[k], data.size2[k]))
  }

  /** `df['price'] >= 500000`: an absent price compares false. */
  predicate KeepRow(row: Listing) {
    row.price.Some? && row.price.value >= MinPrice
  }

  /** The rows the run saves: exactly those with a price of at least
      500000; a row without a price is dropped, not an error. */
  lemma KeptRows(rows: seq<Listing>, row: Listing)
    ensures row in Filter(KeepRow, rows) <==> row in rows && row.price.Some? && row.price.value >= 500000
  {
    if row in rows && KeepRow(row) {
      var k :| 0 <= k < |rows| && rows[k] == row;
    }
  }

  /** The filter keeps the order of the rows: the rows kept before, at and
      after any position come out in that order. */
  lemma KeptRowsOrder(before: seq<Listing>, row: Listing, after: seq<Listing>)
    ensures Filter(KeepRow, before + [row] + after) ==
              Filter(KeepRow, before) + (if KeepRow(row) then [row] else []) + Filter(KeepRow, after)
  {
    FilterAppend(KeepRow, before + [row], after);
    FilterAppend(KeepRow, before, [row]);
    assert [row][1..] == [];
  }

  /** The output file name: `file_name + '.csv'` when a name is given, else
      `scraped_data_<property_type>.csv`, else `scraped_data.csv`. */
  function OutputFileName(propertyType: Option<String>, fileName: Option<String>): (name: String)
    ensures |name| >= 4 && name[|name| - 4..] == ".csv"
    ensures fileName.Some? ==> name[..|name| - 4] == fileName.value
    ensures fileName.None? && propertyType.None? ==> name == "scraped_data.csv"
    ensures fileName.None? && propertyType.Some? ==>
              && |name| == 17 + |propertyType.value|
              && name[..13] == "scraped_data_"
              && name[13..|name| - 4] == propertyType.value
  {
    match fileName
    case Some(f) => f + ".csv"
    case None =>
      match propertyType
      case None => "scraped_data.csv"
      case Some(t) => "scraped_data_" + t + ".csv"
  }

  /** Runs for different property types never write the same default file,
      and none of them writes the file of a run without a type. */
  lemma DefaultFileNamesDistinct(a: String, b: String)
    ensures OutputFileName(Some(a), None) == OutputFileName(Some(b), None) ==> a == b
    ensures OutputFileName(Some(a), None) != OutputFileName(None, None)
  {
    var na := OutputFileName(Some(a), None);
    var nb := OutputFileName(Some(b), None);
    if na == nb {
      assert a == na[13..|na| - 4] == nb[13..|nb| - 4] == b;
    }
  }

  // ---------------------------------------------------------------------
  // The whole run

  /** What is written: the output file name and the rows of the filtered table. */
  datatype Export = Export(fileName: String, rows: seq<Listing>)

  /** Every tile of every fetched page, in fetch order. */
  function AllTiles(numPages: int, propertyType: Option<String>, site: String -> seq<Tile>): seq<Tile> {
    Fetched(site, PageUrls(BaseUrl(propertyType), numPages))
  }

  /** The outcome of a run: the first exception, or the export. */
  function Scrape(numPages: int, propertyType: Option<String>, fileName: Option<String>,
                  site: String -> seq<Tile>): Result<Export>
  {
    var rows :- ParseAll(AllTiles(numPages, propertyType, site));
    Success(Export(OutputFileName(propertyType, fileName), Filter(KeepRow, rows)))
  }

  /** The run fails with the exception of the tiles' parse, or exports the
      kept rows of that parse under the chosen name. */
  lemma ScrapeOutcome(numPages: int, propertyType: Option<String>, fileName: Option<String>,
                      site: String -> seq<Tile>)
    ensures var rows := ParseAll(AllTiles(numPages, propertyType, site));
            Scrape(numPages, propertyType, fileName, site)
            == if rows.Failure? then Failure(rows.error)
               else Success(Export(OutputFileName(propertyType, fileName), Filter(KeepRow, rows.value)))
  {
  }

  /** The columns with one more row appended, element by element. */
  function AppendRow(data: Columns, row: Listing): Columns {
    Columns(data.address + [row.address], data.postcode + [row.postcode], data.city + [row.city],
            data.price + [row.price], data.kind + [row.kind], data.rooms + [row.rooms],
            data.size1 + [row.size1], data.size2 + [row.size2])
  }

  /** Appending one element to each column appends one row to the table. */
  lemma FrameAppendRow(data: Columns, row: Listing)
    requires Aligned(data)
    ensures Aligned(AppendRow(data, row))
    ensures Frame(AppendRow(data, row)) == Frame(data) + [row]
  {
  }

  /** Fetching page `page` appends its tiles to those of the pages
      before it and stays within the tiles of all `numPages` pages. */
  lemma NextPage(site: String -> seq<Tile>, base: String, page: int, numPages: int)
    requires 1 <= page <= numPages
    ensures Fetched(site, PageUrls(base, page))
            == Fetched(site, PageUrls(base, page - 1)) + site(PageUrl(base, page))
    ensures Fetched(site, PageUrls(base, page)) <= Fetched(site, PageUrls(base, numPages))
  {
    var urls := PageUrls(base, page);
    assert urls[..page - 1] == PageUrls(base, page - 1);
    assert urls <= PageUrls(base, numPages);
    FetchedPrefix(site, urls, PageUrls(base, numPages));
  }

  /** When the page counter has run past `numPages`, every page is fetched. */
  lemma AllPagesFetched(base: String, page: int, numPages: int)
    requires 1 <= page <= (if numPages >= 1 then numPages else 0) + 1 && page > numPages
    ensures PageUrls(base, page - 1) == PageUrls(base, numPages)
  {
    if numPages >= 1 {
      assert page - 1 == numPages;
    }
  }

  /** The `for tile in tiles` loop for one fetched page: one element is
      appended to each of the eight lists per tile, and the first tile
      that raises ends the loop with its exception. Parsing the tiles
      seen before this page and then this page's tiles gives exactly the
      table of the lists returned, or that exception. */
  method AppendPage(ghost before: seq<Tile>, tiles: seq<Tile>, data: Columns) returns (r: Result<Columns>)
    requires Aligned(data) && ParseAll(before) == Success(Frame(data))
    ensures r.Success? ==> Aligned(r.value) && ParseAll(before + tiles) == Success(Frame(r.value))
    ensures r.Failure? ==> ParseAll(before + tiles) == Failure(r.error)
  {
    var addresses, postcodes, cities := data.address, data.postcode, data.city;
    var prices, types, rooms, sizes1, sizes2 := data.price, data.kind, data.rooms, data.size1, data.size2;
    assert before + tiles[..0] == before;
    for i := 0 to |tiles|
      invariant Aligned(Columns(addresses, postcodes, cities, prices, types, rooms, sizes1, sizes2))
      invariant ParseAll(before + tiles[..i])
                == Success(Frame(Columns(addresses, postcodes, cities, prices, types, rooms, sizes1, sizes2)))
    {
      var tile := tiles[i];
      ghost var seen := before + tiles[..i];
      ghost var current := Columns(addresses, postcodes, cities, prices, types, rooms, sizes1, sizes2);
      assert seen + [tile] == before + tiles[..i + 1] by {
        assert tiles[..i + 1] == tiles[..i] + [tile];
      }

      // Address
      var address := CleanAddress(tile.address);
      addresses := addresses + [address.address];
      postcodes := postcodes + [address.postcode];
      cities := cities + [address.city];

      // Price
      var price := CleanPrice(tile.price);
      if price.Failure? {
        ParseAllSnoc(seen, tile);
        ParseAllPrefixFailure(seen + [tile], before + tiles);
        return Failure(price.error);
      }
      prices := prices + [price.value];

      // Mix
      var mix := CleanMix(tile.mix);
      if mix.Failure? {
        ParseAllSnoc(seen, tile);
        ParseAllPrefixFailure(seen + [tile], before + tiles);
        return Failure(mix.error);
      }
      types := types + [mix.value.kind];
      rooms := rooms + [mix.value.rooms];
      sizes1 := sizes1 + [mix.value.size1];
      sizes2 := sizes2 + [mix.value.size2];

      ghost var row := Listing(address.address, address.postcode, address.city, price.value,
                               mix.value.kind, mix.value.rooms, mix.value.size1, mix.value.size2);
      assert ParseTile(tile) == Success(row);
      ParseAllSnoc(seen, tile);
      FrameAppendRow(current, row);
    }
    assert tiles[..|tiles|] == tiles;
    r := Success(Columns(addresses, postcodes, cities, prices, types, rooms, sizes1, sizes2));
  }

  /** The run itself: every page is fetched in turn and its tiles appended
      to the eight lists; the table is then filtered on price and saved. */
  method ScrapeDataNybolig(numPages: int, propertyType: Option<String>, fileName: Option<String>,
                           site: String -> seq<Tile>)
    returns (r: Result<Export>)
    ensures r == Scrape(numPages, propertyType, fileName, site)
  {
    var data := Columns([], [], [], [], [], [], [], []);
    var url := BaseUrl(propertyType);
    ghost var all := AllTiles(numPages, propertyType, site);
    ghost var done: seq<Tile> := [];

    var page := 1;
    assert Frame(data) == [];
    while page <= numPages
      invariant 1 <= page <= (if numPages >= 1 then numPages else 0) + 1
      invariant done == Fetched(site, PageUrls(url, page - 1))
      invariant Aligned(data) && ParseAll(done) == Success(Frame(data))
    {
      var tiles := site(PageUrl(url, page));
      NextPage(site, url, page, numPages);
      var appended := AppendPage(done, tiles, data);
      if appended.Failure? {
        ParseAllPrefixFailure(done + tiles, all);
        ScrapeOutcome(numPages, propertyType, fileName, site);
        return Failure(appended.error);
      }
      data := appended.value;
      done := done + tiles;
      page := page + 1;
    }
    AllPagesFetched(url, page, numPages);
    ScrapeOutcome(numPages, propertyType, fileName, site);

    var table := Frame(data);
    var kept := Filter(KeepRow, table);
    r := Success(Export(OutputFileName(propertyType, fileName), kept));
  }
}
