# mppl core in Dafny

This project models the core of mppl, a set of C++ tools that build M3U8
playlists from a music collection:

- `Track`: its defaults, assignment, path rewriting and three-mode ordering.
- `MusicFolderCrawler`: the recursive walk that files tagged tracks into
  per-year and per-artist buckets, and the playlist naming and sorting
  applied when the buckets are written.
- `BandcampMusicCrawler`: matching a Bandcamp purchase collection against
  the crawled artists, with a store of corrections (the lookup file) that
  is loaded, consulted and written back.
- The string helpers `to_lower_case` and `clean_file_name`.
- `convert_playlist` of the `mpconv` tool.

Each module follows one source file:

| module | file | source |
|---|---|---|
| `Wrappers` | wrappers.dfy | `Option` |
| `Strings` | strings.dfy | the `std::string` operations the code relies on: `operator<`, `find`, `find_first_of`, first-occurrence `replace`, and `std::map` key order |
| `Utilities` | utilities.dfy | src/Utilities.cc |
| `Tracks` | track.dfy | src/Track.cc |
| `TrackSort` | track_sort.dfy | the `sort(…, SortTracksFunc())` run on every bucket, as an in-place insertion sort over an `array` |
| `MusicCrawler` | music_crawler.dfy | `MusicFolderCrawler` and the playlist dump functors of src/MusicCrawler.cc |
| `Bandcamp` | bandcamp.dfy | the value-level logic of src/BandcampMusicCrawler.cc: albums, corrections, purchase reconciliation, lookup text |
| `BandcampCrawler` | bandcamp_crawler.dfy | the `BandcampMusicCrawler` class itself |
| `Mpconv` | mpconv.dfy | `convert_playlist` of src/mpconv.cc |

## How the model is built

Track is copied by value everywhere it is stored, so it is a datatype, and
its setters are record updates. Both crawlers update their fields in place,
so they are classes:

- `FolderCrawler` holds the depth and the two bucket maps. Its ghost state
  records the tracks accepted since the crawl started. `Valid()` ties both
  maps to that sequence.
- `BandcampCrawler` holds a `FolderCrawler` (composition stands in for
  inheritance) and the maps and lists of the Bandcamp crawler.

Every method is proved against a function of its inputs:

| method | function |
|---|---|
| `CrawlFolder` | `Accepted`: the tracks a directory tree contributes, in readdir order |
| `Crawl` | `GroupByYear` and `GroupByArtist` |
| `BandcampCrawler.Crawl` | `Reconcile`: a fold of one pass of the item loop over the items |
| `LoadLookupFile` | `Corrections` |
| `WriteLookupFile` | `LookupText` |
| `ParseText` | `Run`: a fold of the `getline` loop's state machine over `Lines` of the text |
| `ConvertPlaylist` | `Converted` |

Lemmas state what those functions promise:

- dot-entries are ignored, and a depth bound of 0 is no bound;
- every bucket gains exactly its own tracks, in order;
- `operator<` is a strict weak order among tracks of one mode, which is what `std::sort` needs;
- lookup corrections round-trip through `WrittenDocument`, the document the written lookup text denotes when `escape_quotes` escapes correctly, for the missing albums the item loop records;
- `Lines` round-trips with its line feeds;
- a playlist needs its header, and every collected track has the selected order.

Inputs from outside become parameters or inputs:

- The file system is an `Entry` tree.
- TagLib's reader is an `Option<Tags>` per file, or a catalog map from path to tags for `mpconv`.
- The JSON documents are already-interpreted values. A missing string reads as "", as with json11.
- `strptime`/`strftime` give a year and an epoch text.
- `escape_quotes` and json11's parse check are function parameters.

In one place the model follows the code, not its intent:

- `CrlfPlaylistRejected`: a playlist with Windows line ends never converts. The `\r` to `\n` rewrite turns each `\r\n` into two line feeds. The blank second line is neither `#EXTINF:` nor a track path, so the loop breaks before any track is read.

## Model

| member | source | states |
|---|---|---|
| Strings.Find | src/Track.cc:74 | `find`: the result is an occurrence at or after the start, and no earlier one exists; None exactly when there is none |
| Strings.FindFirstOf | src/Utilities.cc:44-49 | `find_first_of`: the first index at or after the start holding one of the characters; None when no such index exists |
| Strings.FindAtZero | src/mpconv.cc:113-116 | `find(pat) == 0` holds exactly when the line starts with pat |
| Strings.ReplaceFirst | src/Track.cc:74-79 | only the first occurrence is replaced, and the text is unchanged when there is none |
| Strings.LessTransitive | src/BandcampMusicCrawler.cc:81-87 | `std::string` `operator<` is transitive |
| Strings.LessTotal | src/BandcampMusicCrawler.cc:81-87 | two strings are equal or ordered one way |
| Strings.LessAsymmetric | src/BandcampMusicCrawler.cc:81-87 | `operator<` never holds both ways |
| Strings.InOrderSorted | src/BandcampMusicCrawler.cc:391-392 | iterating a `std::map` visits every key once, in strictly increasing order |
| Strings.LeastOf | src/BandcampMusicCrawler.cc:391-392 | the next key of the iteration is the least key left |
| Utilities.ToLowerCase | src/Utilities.cc:25-37 | the copy with `tolower` applied to every character, the empty string included |
| Utilities.LowerAt | src/Utilities.cc:17-37 | lower-casing keeps the length and maps each character on its own; only A-Z change |
| Utilities.LowerEmpty | src/Utilities.cc:25-37 | a string lower-cases to "" exactly when it is "" |
| Utilities.LowerIdempotent | src/Utilities.cc:25-37 | lower-casing twice is lower-casing once |
| Utilities.LowerAppend | src/Utilities.cc:25-37 | lower-casing a concatenation lower-cases each part |
| Utilities.CleanFileName | src/Utilities.cc:39-53 | the loop gives `Cleaned`: every illegal character becomes '_'; it ends because each pass removes one illegal character |
| Utilities.CleanedAt | src/Track.cc:251-265 | cleaning keeps the length, replaces exactly the illegal characters and leaves none |
| Utilities.CleanedIdempotent | src/Utilities.cc:39-53 | cleaning a cleaned name changes nothing |
| Utilities.CleanedAppend | src/Utilities.cc:39-53 | cleaning a concatenation cleans each part |
| Utilities.IllegalCountReplace | src/Utilities.cc:47-49 | overwriting an illegal character removes exactly one |
| Tracks.Assign | src/Track.cc:47-66 | the result takes the other track's path; a target with the same path is left as it was, otherwise every field is copied |
| Tracks.AssignKeepsStaleTags | src/Track.cc:49-52 | assigning a retagged track with the same path leaves the old tags |
| Tracks.AdjustPath | src/Track.cc:68-81 | only the path changes; the first fromPath becomes toPath, and only when both are set |
| Tracks.RetrieveTags | src/Track.cc:93-142 | None exactly when the reader fails; otherwise the tags are copied, the path is stripped and the URI is the library prefix plus that path; nothing else changes |
| Tracks.NewTrackTagged | src/Track.cc:18-27 | a freshly tagged track keeps alphabetical order and its mtime; its URI drops exactly the first toPath, or fromPath when toPath is empty |
| Tracks.StrippedAt | src/Track.cc:119-138 | removing the first occurrence found at i cuts exactly those characters |
| Tracks.LessIsKeyOrder | src/Track.cc:183-249 | `operator<` is the lexicographic key order of the left operand's mode: (artist, album, number), (artist, year, album, number) or (mtime, artist), artists lower-cased |
| Tracks.LeftModeDecides | src/Track.cc:193-200 | the right operand's mode is never consulted |
| Tracks.MtimeOrder | src/Track.cc:237-249 | in mtime mode: earlier first, ties by lower-cased artist, nothing more |
| Tracks.LessIrreflexive | src/Track.cc:183-249 | no track is less than itself |
| Tracks.LessTransitive | src/Track.cc:183-249 | among tracks of one mode `operator<` is transitive |
| Tracks.LessAsymmetric | src/Track.cc:183-249 | among tracks of one mode `operator<` is asymmetric |
| Tracks.NotLessTransitive | src/Track.cc:183-249 | among tracks of one mode "not less" is transitive, so tracks that compare equal form equivalence classes |
| TrackSort.UniformIsStrictWeak | src/MusicCrawler.cc:32-39 | on tracks sharing one mode, `SortTracksFunc` is a strict weak order |
| TrackSort.SortTracks | src/MusicCrawler.cc:71 | the bucket is always a permutation of itself afterwards, and sorted when its tracks share one mode |
| TrackSort.InsertionSort | src/MusicCrawler.cc:121 | an in-place sort: a permutation, sorted under a strict weak order |
| TrackSort.Insert | src/MusicCrawler.cc:121 | one pass moves an element down past exactly the elements it is less than |
| MusicCrawler.ChildPath | src/MusicCrawler.cc:264-271 | the sub-entry path starts with the parent and ends with the name, with exactly one '/' between them, added only when the parent does not already end in one |
| MusicCrawler.FileTrackAccepts | src/MusicCrawler.cc:182-197 | a file enters a bucket exactly when its tags load with a non-empty artist and a non-zero year; the track keeps its path name and mtime |
| MusicCrawler.AcceptedWellFormed | src/MusicCrawler.cc:179-233 | every accepted track is alphabetical, has a year and a non-empty lower-cased artist |
| MusicCrawler.DotEntriesIgnored | src/MusicCrawler.cc:260-275 | dropping the entries whose name starts with '.' changes nothing |
| MusicCrawler.UnlimitedDepth | src/MusicCrawler.cc:237-238 | with a maximum depth of 0 the depth never matters |
| MusicCrawler.TooDeepSkipped | src/MusicCrawler.cc:236-242 | a directory deeper than a non-zero bound adds nothing |
| MusicCrawler.GroupByYearBuckets | src/MusicCrawler.cc:199-213 | each year bucket gains exactly that year's tracks, in order; a year is a key exactly when it was or some track has it |
| MusicCrawler.GroupByArtistBuckets | src/MusicCrawler.cc:215-232 | each artist bucket gains exactly the year-ordered copies of that lower-cased artist's tracks, in order |
| MusicCrawler.GroupByYearAppend | src/MusicCrawler.cc:199-213 | filing two runs of tracks one after the other is filing them together |
| MusicCrawler.GroupByArtistAppend | src/MusicCrawler.cc:218-232 | the same for artist buckets |
| MusicCrawler.AddTouchesOnlyItsBuckets | src/MusicCrawler.cc:199-232 | one track changes only its own year bucket and its own artist bucket, each by appending it |
| MusicCrawler.YearBucketsUniform | src/MusicCrawler.cc:182-213 | year buckets hold alphabetical tracks only, so they sort by one mode |
| MusicCrawler.ArtistBucketsUniform | src/MusicCrawler.cc:215-232 | artist buckets hold year-ordered tracks only |
| MusicCrawler.FolderCrawler.constructor | src/MusicCrawler.cc:150-155 | depth 0, no buckets |
| MusicCrawler.FolderCrawler.Crawl | src/MusicCrawler.cc:167-172 | the buckets gain exactly the accepted tracks of the tree, grouped by year and by artist; the depth is restored |
| MusicCrawler.FolderCrawler.CrawlFile | src/MusicCrawler.cc:179-233 | an accepted file is appended to its year bucket and, as a year-ordered copy, to its lower-cased artist's bucket; otherwise nothing changes |
| MusicCrawler.FolderCrawler.CrawlFolder | src/MusicCrawler.cc:174-289 | the crawled tracks grow by exactly `Accepted` of the entry; `Valid` and the depth are kept |
| MusicCrawler.FolderCrawler.CrawlDirectory | src/MusicCrawler.cc:234-284 | the same for a directory: nothing past the depth bound or when it does not open |
| MusicCrawler.FolderCrawler.CrawlEntries | src/MusicCrawler.cc:252-283 | one level deeper, every entry in readdir order; the depth is restored |
| MusicCrawler.FolderCrawler.CrawlChild | src/MusicCrawler.cc:258-275 | a dot-entry is skipped; any other entry is crawled under parent + "/" + name, with no slash doubled |
| MusicCrawler.Decimal | src/MusicCrawler.cc:57-59 | the stream writes digits only, with no leading zero |
| MusicCrawler.DecimalRoundTrip | src/MusicCrawler.cc:57-59 | the written year reads back as the year |
| MusicCrawler.YearFileNamesDistinct | src/MusicCrawler.cc:57-61 | two years never share a playlist file name |
| MusicCrawler.DumpYearTracks | src/MusicCrawler.cc:52-78 | a playlist is written exactly for a positive year with tracks, under the cleaned prefix + year, holding a sorted permutation of the bucket |
| MusicCrawler.SortedCopy | src/MusicCrawler.cc:71 | a permutation of the bucket, sorted when its tracks share a mode |
| MusicCrawler.Capitalized | src/MusicCrawler.cc:103-113 | only a lower-case first letter changes, to upper case |
| MusicCrawler.ArtistFileNamesCollide | src/MusicCrawler.cc:98-113 | different artists can map to the same playlist file |
| MusicCrawler.DumpArtistTracks | src/MusicCrawler.cc:93-128 | a playlist is written exactly for a non-empty key whose first track has an artist, named after that artist cleaned and capitalised, holding a sorted permutation |
| Bandcamp.ToKey | src/BandcampMusicCrawler.cc:96-99 | the key is the artist, " - ", then the album |
| Bandcamp.ToKeyInjective | src/BandcampMusicCrawler.cc:96-99 | with artists of one length, equal keys mean equal albums |
| Bandcamp.ToKeyCollision | src/BandcampMusicCrawler.cc:96-99 | otherwise two different albums can share a key |
| Bandcamp.AlbumLessStrictTotal | src/BandcampMusicCrawler.cc:79-94 | `BandcampAlbum::operator<` is irreflexive, transitive and total on different albums |
| Bandcamp.Correction | src/BandcampMusicCrawler.cc:314-344 | a value with an artist or album gives them lower-cased; otherwise a path is looked up as given, then after the top-level directory; non-objects give nothing |
| Bandcamp.Corrections | src/BandcampMusicCrawler.cc:301-346 | a key is registered exactly when its value yields a correction; a non-object document registers nothing |
| Bandcamp.OverlayProperties | src/BandcampMusicCrawler.cc:362-376 | each non-empty field of the correction replaces the album's own; a full correction is taken whole, an empty one changes nothing, and overlaying twice is overlaying once |
| Bandcamp.AlbumCopiesProperties | src/BandcampMusicCrawler.cc:258-296 | one copy per track of the album: mtime order and the art URL; the purchase time when its text is not empty, else the track's own time |
| Bandcamp.AddTracks | src/BandcampMusicCrawler.cc:279-293 | copies go to the end of the year's bucket; other years are untouched and no copy adds no key |
| Bandcamp.ItemStepBounds | src/BandcampMusicCrawler.cc:159-231 | per item: at most two resolutions, one missing album and one counted artist; an unknown artist files nothing |
| Bandcamp.ReconcileBounds | src/BandcampMusicCrawler.cc:159-231 | over all items: at most two resolutions and one count per item; the missing list only grows |
| Bandcamp.ReconcileKeepsMtime | src/BandcampMusicCrawler.cc:272-277 | purchase buckets only ever hold mtime-ordered tracks |
| Bandcamp.WrittenDocumentRoundTrip | src/BandcampMusicCrawler.cc:381-419 | when no missing album's key is resolved, loading `WrittenDocument` registers every resolved album that has an artist or album, lower-cased, and nothing for the blank templates |
| Bandcamp.ReconcileMissingUnresolved | src/BandcampMusicCrawler.cc:351-358 | the item loop records an album as missing only when its key is not resolved, so no missing album's key is ever resolved |
| Bandcamp.ReconciledLookupRoundTrip | src/BandcampMusicCrawler.cc:159-231 | after the item loop, from an unresolved missing list, the written lookup document reads back as exactly the resolved albums with an artist or album, lower-cased |
| BandcampCrawler.ResolvedEntriesText | src/BandcampMusicCrawler.cc:388-401 | the opening brace and the resolved entries in key order, comma-separated |
| BandcampCrawler.TemplateEntriesText | src/BandcampMusicCrawler.cc:402-411 | the text so far followed by one blank template per missing album, comma-separated |
| BandcampCrawler.BandcampCrawler.constructor | src/BandcampMusicCrawler.cc:101-107 | an empty lookup object; a parse error exactly when the collection does not parse |
| BandcampCrawler.BandcampCrawler.WithLookup | src/BandcampMusicCrawler.cc:109-116 | both documents report into one error, so either failing is a parse error |
| BandcampCrawler.BandcampCrawler.RecordAlbumArtist | src/BandcampMusicCrawler.cc:236-244 | the album is kept only for a path not yet recorded |
| BandcampCrawler.BandcampCrawler.LoadLookupFile | src/BandcampMusicCrawler.cc:301-349 | the registered corrections become the document's corrections under those already registered, which are never replaced |
| BandcampCrawler.BandcampCrawler.LookupCorrection | src/BandcampMusicCrawler.cc:312-344 | one value's correction, as `Correction` |
| BandcampCrawler.BandcampCrawler.ResolveMissingAlbum | src/BandcampMusicCrawler.cc:351-379 | an unknown key is appended to the missing albums and the album is unchanged; a known one gets the correction overlaid |
| BandcampCrawler.BandcampCrawler.FindAlbumTracks | src/BandcampMusicCrawler.cc:246-299 | the result counts the artist's tracks of the album; their copies go to the end of the purchase year's bucket |
| BandcampCrawler.BandcampCrawler.ProcessItem | src/BandcampMusicCrawler.cc:162-230 | one pass of the item loop, as `ItemStep` |
| BandcampCrawler.BandcampCrawler.ProcessAlbum | src/BandcampMusicCrawler.cc:208-226 | the album's tracks are filed; when it has none it is resolved once and, if it resolves, the corrected album's tracks are filed: the buckets, missing albums and resolutions `AlbumStep` gives |
| BandcampCrawler.BandcampCrawler.Crawl | src/BandcampMusicCrawler.cc:129-234 | nothing changes on a parse error or an incomplete or empty collection; otherwise the folder crawl, the lookup load, then `Reconcile` over the items, its count returned; no missing album's key is resolved afterwards when none was before |
| BandcampCrawler.BandcampCrawler.WriteLookupFile | src/BandcampMusicCrawler.cc:381-445 | without a file name nothing is written; otherwise `LookupText`, when it parses |
| Mpconv.UnixNewlinesProperties | src/mpconv.cc:80-91 | the rewrite keeps the length, turns each '\r' into '\n', changes nothing else and leaves no '\r' |
| Mpconv.UnixNewlinesIdempotent | src/mpconv.cc:80-91 | rewriting twice is rewriting once |
| Mpconv.ReplaceCarriageReturns | src/mpconv.cc:74-91 | the replace loop over the local copy of the text: the result is `UnixNewlines` of the text and the count is the number of '\r' in it |
| Mpconv.LinesOfTerminated | src/mpconv.cc:93-106 | the getline loop reads back exactly the lines of a text, each ended by '\n'; a last unterminated piece is never processed |
| Mpconv.LinesHaveNoLineFeed | src/mpconv.cc:106 | no line read holds a line feed |
| Mpconv.SortFor | src/mpconv.cc:152-162 | "year" and "mtime" select those orders; anything else is alphabetical |
| Mpconv.PathTrack | src/mpconv.cc:145-165 | a path line yields a track exactly when the adjusted path has tags; it has the selected order |
| Mpconv.RunFinished | src/mpconv.cc:119-173 | once the loop has returned or broken, later lines change nothing |
| Mpconv.HeaderRequired | src/mpconv.cc:108-122 | a first line that does not start with #EXTM3U fails the conversion |
| Mpconv.InfoLine | src/mpconv.cc:124-143 | an #EXTINF: line succeeds exactly when a comma stands before its last character, and then asks for a path |
| Mpconv.OtherLine | src/mpconv.cc:144-174 | any other line is a track path straight after #EXTINF:, and stops the loop anywhere else |
| Mpconv.RunTracks | src/mpconv.cc:100-177 | every collected track has the selected order and is the track of a path line directly after an #EXTINF: line, after the header; a pending path request follows an #EXTINF: line; at most two lines per track besides the header |
| Mpconv.ProcessLine | src/mpconv.cc:108-176 | the loop body goes to the state `Step` gives |
| Mpconv.ParseText | src/mpconv.cc:93-177 | the getline loop ends in `Run` of the text's lines |
| Mpconv.ConvertedProperties | src/mpconv.cc:45-188 | success needs both file names, a read non-empty file, the header and at least one track, all in the selected order |
| Mpconv.CrlfPlaylistRejected | src/mpconv.cc:80-121 | a playlist whose header ends in "\r\n" is never converted |
| Mpconv.ConvertPlaylist | src/mpconv.cc:45-189 | the tracks written are `Converted`, or None where the function returns false |

## Left out

- I/O is not modelled. This covers `stat`, `opendir`/`readdir`, TagLib, `load_file`, `clog` and `Track::write_file`. The directory tree, the tag reader and the file contents are inputs; a written playlist is a value (`Playlist`, or the tracks `ConvertPlaylist` returns).
- JSON parsing and `Json::dump` are not modelled. The documents are inputs, already interpreted. `WriteLookupFile` returns the text it checks. The file receives json11's re-serialisation of it, which is not modelled.
- `strptime` and `strftime` are not modelled: the purchase year, the epoch value and its text length are item fields.
- `escape_quotes` is not modelled. It is a parameter, and `WrittenDocumentRoundTrip` assumes it escapes correctly.
- The command-line front ends (`main` of mpconv.cc, mpgen.cc, mpbandcamp.cc) are out of scope, as are the static settings they fill in (output directory, library paths, maximum depth, lookup file name). Those settings are parameters.
- Deleting the heap-allocated bucket vectors is not modelled; buckets are sequences held by value. Writing playlists from the destructors is modelled only as the two dump functions.
- `dump_and_delete_tracks` is called at src/BandcampMusicCrawler.cc:125 but is not modelled, so the purchase-bucket playlists are outside this model.
- `MusicFolderCrawler::record_album_artist`, which the Bandcamp override forwards to at src/BandcampMusicCrawler.cc:241, is not modelled. `crawl_folder` never calls `record_album_artist`, so `pathAlbums` fills only through explicit `RecordAlbumArtist` calls.
- Lines 291-503 of src/MusicCrawler.cc repeat the Bandcamp crawler in an older form. They are not modelled; the model follows src/BandcampMusicCrawler.cc.
- `Track::set_album_art` (called at src/BandcampMusicCrawler.cc:270) is represented by an `albumArt` field of the track, set by record update.
- mpconv builds `Track newTrack(line)`, but Track.cc defines no one-argument constructor. The model uses name = path = line with mtime 0.
- The `inputFile.good()` check on a fresh `stringstream` always passes, so it is not modelled.
- `replaceCount` and `lineCount` only feed diagnostics. `ReplaceCarriageReturns` still returns the count.
- `load_lookup_file` iterates the lookup object in key order. Since it never replaces a registered key, the order does not matter and the model visits keys in any order.
- `MusicFolderCrawler::crawl_folder` reads `entryName[entryName.length() - 1]` even for an empty name, which is undefined in C++. The model treats an empty parent like any name without a trailing slash.
- When `stat` fails, `fileStat` is uninitialised. The model gives every entry a definite kind (file, directory or other).
- TrackSort.SortTracks: `std::sort` moves tracks through `Track::operator=` (src/Track.cc:47-66), which leaves the target as it was when both paths are equal. The model swaps whole values, so it matches the source only when the tracks of a bucket have pairwise distinct paths. This is not proved for folder buckets. It need not hold for purchase buckets, where two purchases of one album file the same track twice.
- Strings are sequences of Unicode characters, while `std::string` holds bytes. Every pattern the core uses is ASCII, `tolower`/`islower`/`toupper` run in the C locale and change only A-Z and a-z, and UTF-8 byte order equals code-point order, so results agree. Lengths and indexes are counted in characters rather than bytes, and invalid UTF-8 cannot be represented.
- Integer widths are not modelled. Years, track numbers and mtimes are unbounded integers, and the `unsigned int` year of `find_album_tracks` is the same value as the `int` key.
- `Track` is modelled on values: assignment and the setters return new records rather than updating one object in place.
