# Nybolig listing scraper, modelled in Dafny

The repository's scraper, `NyboligScraper.scrape_data_nybolig` in
`dataproject.py`, fetches pages 1 to `num_pages` of the nybolig.dk
listing index, for all listings or for one property type. It turns every
listing tile into one row of eight columns: address, postcode, city,
price, type, rooms, size_1 and size_2. It keeps the rows priced at
500000 or more and saves them under a file name chosen from its optional
arguments.

This project models that scraper and proves properties of it:

- `outcome.dfy` holds the optional values and the two uncaught exceptions, `ValueError` from `int(...)` and `IndexError` from `split()[0]`.
- `pystr.dfy` holds the Python string operations the scraper uses: `str.strip()`, `str.split(sep)`, `str.split()`, `' '.join`, `filter(str.isdigit, ...)`, `int(...)` and `str(n)`.
- `tile.dfy` holds the cleaning of one tile's address, price and descriptor ("mix") paragraphs into a row, where the first exception aborts the row.
- `scraper.dfy` holds the page URLs, the eight-list accumulation loop, the price filter, the output file name and the whole run.

The accumulation is modelled as methods. `AppendPage` models the
`for tile in tiles` loop. `ScrapeDataNybolig` models the page loop and
then filters and names the export. Both are proved against the functional
specification `ParseAll` / `Scrape`.

The web site is the parameter `site`. It gives the tiles found at a URL.
Each tile holds the first text node of its address, price and mix
paragraphs, or `None` when a paragraph is missing or has no text.

An address without ", " is modelled as the code handles it. When such
an address holds a space, as "Torvet 3" does, the code takes its
postcode and city from the text around the first space, giving postcode
"Torvet" and city "3"; they are not absent. Without a space, as in
"Torvet", both are absent. `AddressWithoutSeparator`
states this case.

## Model

| member | source | states |
|---|---|---|
| PyStr.IsSpace | dataproject.py:48 | the `str.isspace` set that `strip()` and `split()` use; stated through `StripTrims`, `StripEnds`, `WordsAreWords` and `FirstWordOutcome` |
| PyStr.IsDigit | dataproject.py:60 | `str.isdigit`, ASCII digits only; stated through `FilterMembers`, `CleanPriceDigits` and `ParseInt` |
| PyStr.Join | dataproject.py:52 | `sep.join(parts)`, also at dataproject.py:60 and 67; stated by `JoinSnoc`, `JoinLast`, `SplitParts` (its inverse `Split`) and `WordsJoin` (its inverse `Words`) |
| PyStr.JoinSnoc | dataproject.py:52 | joining one more part appends the separator and that part |
| PyStr.JoinLast | dataproject.py:52 | a join of two or more parts is the join of all but the last, the separator and the last part |
| PyStr.Strip | dataproject.py:48 | `str.strip()` with Python's whitespace set; its properties are stated by `StripTrims`, `StripEnds` and `StripUnchanged` |
| PyStr.Split | dataproject.py:50 | `str.split(sep)` cutting at the leftmost non-overlapping occurrences, with at least one piece; its properties are stated by `SplitParts`, `SplitFirst`, `SplitLast`, `SplitAtSep` and `SplitWithout` |
| PyStr.Words | dataproject.py:67 | `str.split()` with no argument: the maximal whitespace-free runs in order; its properties are stated by `WordsAreWords` and `WordsJoin` |
| PyStr.Collapse | dataproject.py:67 | `' '.join(s.split())`; stated by `CollapseIdempotent` and `Tile.MixTextCollapsed` |
| PyStr.Filter | dataproject.py:60 | the built-in `filter`, in order; stated by `FilterMembers` and `FilterAppend` |
| PyStr.StripTrims | dataproject.py:48 | `strip()` returns a slice of its input with nothing but whitespace before it and after it |
| PyStr.StripEnds | dataproject.py:48 | a non-empty stripped text neither starts nor ends with whitespace |
| PyStr.StripUnchanged | dataproject.py:48 | text whose ends are not whitespace is its own strip |
| PyStr.SplitParts | dataproject.py:50 | joining the pieces of `split(sep)` with `sep` gives the input back; no piece holds `sep`; there is more than one piece exactly when `sep` occurs |
| PyStr.SplitFirst | dataproject.py:68-70 | the first piece of `split(sep)` is a prefix of the text in which no `sep` starts; it is the whole text when there is one piece, and otherwise a `sep` follows it and the other pieces joined follow that `sep` |
| PyStr.SplitLast | dataproject.py:50 | the piece `[-1]` of `split(sep)` is a suffix of the text that holds no `sep`; it is the whole text when there is one piece, and otherwise a `sep` ends right before it (for a `sep` such as ", " that cannot overlap itself, this is the text after the last `sep`) |
| PyStr.SplitAtSep | dataproject.py:68 | a text made of a piece that lacks the first character of `sep`, or lacks its second character when that differs from the first, then `sep`, then the rest, splits into that piece followed by the pieces of the rest |
| PyStr.SplitWithout | dataproject.py:50 | a text without `sep` splits into itself alone |
| PyStr.WordsAreWords | dataproject.py:67 | every piece of `split()` is a non-empty word without whitespace, and there are none exactly when the text is all whitespace |
| PyStr.WordsJoin | dataproject.py:67 | `' '.join(ws).split()` gives back any list of words `ws` |
| PyStr.CollapseIdempotent | dataproject.py:67 | collapsing the whitespace of a collapsed text changes nothing |
| PyStr.FilterMembers | dataproject.py:60 | `filter` keeps exactly the elements that pass the test, never more elements than it is given |
| PyStr.FilterAppend | dataproject.py:60 | filtering two texts back to back gives their filtered texts back to back, so order is kept |
| PyStr.ParseInt | dataproject.py:61 | `int(s)` succeeds exactly on a non-empty string of digits, and otherwise raises `ValueError` with `s` as its literal |
| PyStr.DecimalString | dataproject.py:35 | `str(n)` is a non-empty string of digits of value `n` with no leading zero (a first digit 0 only in the one-character "0") |
| PyStr.ParseDecimalString | dataproject.py:35 | `int(str(n)) == n` |
| PyStr.DecimalStringInjective | dataproject.py:35 | different page numbers print differently |
| PyStr.DecimalValueAppend | dataproject.py:60-61 | the digits of two texts back to back spell the first value shifted by the length of the second, plus the second value |
| Tile.LastSegment | dataproject.py:50 | `split(', ')[-1]`; stated by `LastSegmentSuffix` and `LastSegmentAfter` |
| Tile.LastSegmentSuffix | dataproject.py:50 | `split(', ')[-1]` is a suffix without ", ", preceded by ", " when it is not the whole address |
| Tile.LastSegmentAfter | dataproject.py:50 | the last ", " segment of `s + ", " + t` is `t` when `t` holds no ", " |
| Tile.CleanAddress | dataproject.py:47-56 | the address branch; its properties are stated by `CleanAddressFields`, `AddressWithoutSeparator` and `CleanAddressRoundTrip` |
| Tile.CleanAddressFields | dataproject.py:47-56 | a missing address gives three absent fields; otherwise the address is the stripped text; postcode and city are present together, exactly when the last ", " segment holds a space, and are the space-free text before its first space and the text after it |
| Tile.AddressWithoutSeparator | dataproject.py:50-52 | an address without ", " that holds a space still gets a postcode and a city, split at its first space |
| Tile.CleanAddressRoundTrip | dataproject.py:47-52 | cleaning "street, postcode city" gives back that address, postcode and city |
| Tile.CleanPrice | dataproject.py:59-63 | the price branch; its properties are stated by `CleanPriceDigits` and `CleanPriceRoundTrip` |
| Tile.CleanPriceDigits | dataproject.py:59-63 | a missing price is absent, not an error; a price paragraph succeeds exactly when it holds a digit and gives the value of its digits in order; with no digit it raises `ValueError` on the empty literal |
| Tile.ThousandsDigits | dataproject.py:60 | the digits of a price printed in dotted groups of three spell that price |
| Tile.CleanPriceRoundTrip | dataproject.py:59-61 | cleaning a dotted price between digit-free text, as in "1.250.000 kr.", gives back the price |
| Tile.FirstWord | dataproject.py:71 | `split()[0]`; stated by `FirstWordOutcome` |
| Tile.FirstWordOutcome | dataproject.py:71 | `split()[0]` raises `IndexError` exactly when the text is all whitespace, and otherwise gives the first word |
| Tile.ParseRooms | dataproject.py:71 | the rooms column; stated by `ParseRoomsValue` |
| Tile.ParseRoomsValue | dataproject.py:71 | rooms are absent without a second part; otherwise they succeed exactly when the part's first word is a decimal literal, and are its value; an all-whitespace part raises `IndexError`, a word that is no literal `ValueError` on that word |
| Tile.ParseSizes | dataproject.py:73-79 | the two size columns; stated by `ParseSizesValue` |
| Tile.ParseSizesValue | dataproject.py:73-79 | sizes are absent without a third part; an all-whitespace third part raises `IndexError`; otherwise its first word is cut at "/" and the sizes succeed exactly when the first piece, and the second when there is one, are decimal literals, a bad piece raising `ValueError` on it, the first piece checked first; size_1 is the value of the first piece and size_2, present exactly when there is a second piece, its value |
| Tile.CleanMix | dataproject.py:66-84 | the mix branch; its properties are stated by `CleanMixFields` and `CleanMixRoundTrip` |
| Tile.CleanMixFields | dataproject.py:66-84 | a missing mix gives four absent fields; otherwise the type is always present and is the collapsed text up to its first bar separator, with no separator starting inside it; rooms are the value parsed from part 1 and the sizes those parsed from part 2, so rooms are present exactly when there are at least 2 parts and size_1 exactly when there are at least 3; the mix fails exactly when rooms or sizes fail, with the rooms' exception reported first |
| Tile.AreaTextPieces | dataproject.py:74 | a printed area "180/220" is one word without a bar and cuts at "/" into the digits of each size |
| Tile.MixTextCollapsed | dataproject.py:67 | a descriptor printed the way the site prints one ("Villa", bar, "5 rum", bar, "180/220 m²") is unchanged by collapsing its whitespace |
| Tile.MixTextParts | dataproject.py:68 | cutting a printed descriptor at its bar separators gives its type, rooms part and, when shown, area part |
| Tile.CleanMixRoundTrip | dataproject.py:66-79 | cleaning a printed descriptor gives back its type, rooms and sizes; without an area both sizes are absent |
| Tile.ParseTile | dataproject.py:46-84 | one tile's row, price parsed before mix; stated by `ParseTileOutcome`, `AbsentFragments` and `ParseTileRoundTrip` |
| Tile.ParseTileOutcome | dataproject.py:46-84 | a tile gives a row exactly when its price and mix clean; a bad price is reported before a bad mix; address, price and type are present exactly when their paragraphs are |
| Tile.AbsentFragments | dataproject.py:53-84 | a missing paragraph leaves absent every field it feeds |
| Tile.ParseTileRoundTrip | dataproject.py:46-84 | a tile printed the way the site prints one parses to the listing it shows |
| Scraper.BaseUrl | dataproject.py:29-32 | the listing index for all listings or one property type; stated by `BaseUrlOfType` |
| Scraper.BaseUrlOfType | dataproject.py:29-35 | without a type the pages are `https://www.nybolig.dk/til-salg?page=<n>`, with type `t` they are `https://www.nybolig.dk/til-salg/<t>?page=<n>`; different types give different indexes and none is the untyped one |
| Scraper.PageUrl | dataproject.py:35 | `f'{url}?page={page}'`; stated by `PageUrls`, `PageNumberRoundTrip` and `BaseUrlOfType` |
| Scraper.PageUrls | dataproject.py:29-35 | no URL when `num_pages` is not positive, else one URL per page, `url?page=i` for i from 1 to `num_pages` in that order |
| Scraper.PageNumberRoundTrip | dataproject.py:35 | the page number can be read back from the end of its URL |
| Scraper.PageUrlsDistinct | dataproject.py:34-35 | no page URL is fetched twice |
| Scraper.PageNumbersInOrder | dataproject.py:34-35 | the page numbers read back from the URLs are 1, 2, ..., `num_pages` in order |
| Scraper.NextPage | dataproject.py:34-39 | fetching page `i` appends its tiles after those of pages 1 to i-1 |
| Scraper.Fetched | dataproject.py:34-39 | the tiles of the fetched pages, page after page; stated by `NextPage` |
| Scraper.ParseAll | dataproject.py:41-84 | parsing every tile in order, the first exception ending the run; stated by `ParseAllRows`, `ParseAllFirstFailure`, `ParseAllPrefixFailure` and `ParseAllAppend` |
| Scraper.ParseAllRows | dataproject.py:41-84 | the run's rows exist exactly when every tile parses, and then row `i` is the row of tile `i` |
| Scraper.ParseAllFirstFailure | dataproject.py:41-84 | when some tile raises, the run fails with the exception of the first such tile |
| Scraper.ParseAllPrefixFailure | dataproject.py:34-84 | once a tile has raised, later pages and tiles change nothing |
| Scraper.ParseAllAppend | dataproject.py:34-84 | the tiles of pages fetched back to back give their rows back to back |
| Scraper.Frame | dataproject.py:86-96 | `pd.DataFrame(data)`: row `k` holds element `k` of each column; stated by `FrameAppendRow` |
| Scraper.FrameAppendRow | dataproject.py:86-96 | appending one element to each of the eight aligned lists appends one row to the table and keeps the lists aligned |
| Scraper.KeepRow | dataproject.py:97 | `df['price'] >= 500000`, false for an absent price; stated by `KeptRows` |
| Scraper.KeptRows | dataproject.py:97 | a row is saved exactly when it is in the table with a price of at least 500000; 500000 itself is kept and a row without a price is dropped |
| Scraper.KeptRowsOrder | dataproject.py:97 | the filter keeps the order of the rows |
| Scraper.OutputFileName | dataproject.py:100-106 | the name ends in ".csv"; it is `file_name + ".csv"` when a name is given, else `scraped_data_<type>.csv`, else `scraped_data.csv` |
| Scraper.DefaultFileNamesDistinct | dataproject.py:100-104 | different property types never share a default file, and none shares the file of a run without a type |
| Scraper.Scrape | dataproject.py:19-107 | the run as a function: the first exception, or the kept rows of all tiles under the chosen name; `ScrapeDataNybolig` is proved equal to it |
| Scraper.AppendPage | dataproject.py:41-84 | the page's loop appends one element to each of the eight lists per tile, keeping them aligned; its table is the parse of the tiles so far, or it returns the exception of the first tile that raises |
| Scraper.ScrapeDataNybolig | dataproject.py:19-107 | the run gives the first exception raised, or the rows of every tile of pages 1 to `num_pages` with a price of at least 500000, in order, under the chosen file name |

## Left out

- Network and HTML are not modelled. `requests.get`, `html.fromstring` and the XPath queries (dataproject.py:36-44) become the parameter `site`. It gives each page's tiles, and each tile holds the first text node of its three paragraphs.
- `get_pages` (dataproject.py:7-17) only prints a page count read from fetched markup: network and console output, nothing computed.
- `NyboligAnalysis` and `descriptive_statistics` are floating-point statistics over a file read back from disk.
- Writing the CSV file (dataproject.py:107) is not modelled. The run ends in `Export`, which holds the file name and the kept rows. The CSV text, the header and pandas' conversion of the integer columns to floats when values are absent are not modelled.
- Scraper.Frame: `pd.DataFrame` raises `ValueError` when the eight lists differ in length. The model makes equal lengths a precondition, and `AppendPage` proves that the lists stay aligned, so that error cannot arise.
- PyStr.ParseInt: accepts only non-empty ASCII digit strings. Python's `int` also accepts a sign, surrounding whitespace, underscores between digits and non-ASCII decimal digits. A rooms word such as "+5" therefore fails here but parses in Python. In the other direction, Python 3.11 and later raise `ValueError` on a literal of more than 4300 digits, which succeeds here.
- PyStr.IsDigit: is ASCII '0' to '9' only. Python's `str.isdigit` also holds for other Unicode digits, such as superscripts.
- The page argument `num_pages` is an integer here. A non-integer `num_pages` or `property_type`, which Python would reject or format with `str`, is not modelled.
- Exceptions are not caught anywhere in the source. The elements appended to the lists before a tile raises are therefore never observable. `AppendPage` returns the exception without them.
- Tile.CleanAddressRoundTrip, Tile.CleanPriceRoundTrip, Tile.CleanMixRoundTrip, Tile.ParseTileRoundTrip: state the round trip only for text printed in the site's format: a street, a postcode of digits and a city without ", "; a price in dotted groups of three between digit-free text; a one-word type. Other inputs are covered by the field lemmas `CleanAddressFields`, `CleanPriceDigits` and `CleanMixFields`.
