# Chunked terrain, duplicate media and an inventory dashboard, in Dafny

This project models the sequential core of three programs kept in one repository and proves what their code promises.

- **MeshMap** is the chunked terrain engine of a PyGame/OpenGL game.
  - Chunk coordinates are the floor division of a target position by the chunk width.
  - The chunks to keep are a Chebyshev square around the target's chunk.
  - A per-chunk mesh builder samples heights on a grid with a one-tile halo. It emits a top quad per tile and a wall quad on every side whose neighbour is strictly lower.
  - A two-dictionary state machine tracks the chunks. `__chunks` holds the Ready chunks and `__chunk_futures` the Pending generation jobs.
  - Its operations are submission, a bounded drain per update, a blocking preload, selection of the visible chunks to draw, and cleanup.
- **DuplicateMediaFinder** is a Java tool that groups similar pictures and videos.
  - It dispatches on the file-name extension.
  - An image gets the 64-bit average hash of its 8x8 grey rendering.
  - A video gets the character-wise XOR fold of its key-frame hashes.
  - Hashes are stored in a Burkhard–Keller tree under Hamming distance. A search returns the hashes within distance 5, and the search results are memoised.
  - Files are grouped greedily in list order.
- **An inventory dashboard** has a FastAPI back end and a JavaScript chart page.
  - `parse_chart_json` counts orders and usages per category and month.
  - `parse_table_json` computes each product's earliest expiration date and raises Critical or Warning alerts.
  - `format_date_to_airtable` turns "YYYY-MM-DD" into "MM/DD/YYYY".
  - The purchase and usage report handlers validate their items and write them one by one.
  - On the chart page, `getLast12Months` finds the latest month over all charts and builds the twelve month labels ending there. `formatDataForChart` aligns each chart's rows to those labels.

The form of the model follows the form of the code.

- The objects whose fields change become classes whose methods are proved against specification functions: `TerrainMap.MeshMap`, `BKTrees.BKTree`, `MediaGrouping.DuplicateMediaFinder` and the Airtable table `Reports.Table`.
- The loops become methods with loop invariants. Examples are the mesh builder, the drain, the XOR fold, the hash thresholding, the record loops of the dashboard, and the twelve-month loop.
- The pure expressions become functions. The properties are lemmas about those functions.

The Dafny modules are:

- `ChunkGrid`, `ChunkMesh` and `TerrainMap` for MeshMap;
- `MediaHasher`, `BKTrees` and `MediaGrouping` for the media finder;
- `AirtableDates`, `ChartJson`, `TableJson` and `Reports` for the dashboard back end;
- `ChartView` for the chart page;
- `Text`, `SeqUtil` and `Wrappers`, which hold shared text, sequence and result helpers.

Things the code gets from outside are parameters of the model.

- The terrain height is an uninterpreted, deterministic `HeightField`.
- A generation job's status is a `poll` oracle (Running, Failed or Finished) for each update. The preload's outcome is a `succeeds` predicate.
- A GPU buffer is a fresh number from a counter.
- An image is the red channel of its 8x8 grey rendering. A video is its list of key frames.
- The replies of Airtable writes are a function from the write's sequence number to a status and a message.
- The clock is a `Settings` value: today's date, whether midnight has passed, and the two day thresholds.

## Model

| member | source | states |
|---|---|---|
| ChunkGrid.ChunkIndex | PyGameSwarmSurvival/GameMaterials/MeshMap.py:207-208 | the chunk index c of a position x satisfies c·W ≤ x < (c+1)·W, for negative x too |
| ChunkGrid.ChunkIndexUnique | PyGameSwarmSurvival/GameMaterials/MeshMap.py:52-53 | any c with c·W ≤ x < (c+1)·W is the chunk index, so the chunk of a position is unique |
| ChunkGrid.RangeMembers | PyGameSwarmSurvival/GameMaterials/MeshMap.py:212 | `range(lo, hi)` holds exactly the integers lo ≤ v < hi |
| ChunkGrid.RangeDistinct | PyGameSwarmSurvival/GameMaterials/MeshMap.py:212 | `range` lists no value twice |
| ChunkGrid.RowsMembers | PyGameSwarmSurvival/GameMaterials/MeshMap.py:212-215 | the nested loops visit exactly the pairs (x, z) with x in the outer range and z in the inner range |
| ChunkGrid.RowsLength | PyGameSwarmSurvival/GameMaterials/MeshMap.py:212-215 | the nested loops visit as many pairs as the product of the two ranges' lengths |
| ChunkGrid.RowsDistinct | PyGameSwarmSurvival/GameMaterials/MeshMap.py:212-215 | the nested loops visit no pair twice when both ranges are distinct |
| ChunkGrid.SquareSeqMembers | PyGameSwarmSurvival/GameMaterials/MeshMap.py:212-215 | the required coordinates are exactly those within Chebyshev distance R of the centre chunk |
| ChunkGrid.SquareSeqShape | PyGameSwarmSurvival/GameMaterials/MeshMap.py:212-215 | the required coordinates are (2R+1)² distinct coordinates |
| ChunkGrid.Square | PyGameSwarmSurvival/GameMaterials/MeshMap.py:255-258 | the visible set holds exactly the coordinates within Chebyshev distance R of the centre |
| ChunkGrid.SquareCard | PyGameSwarmSurvival/GameMaterials/MeshMap.py:255-258 | the visible set has (2R+1)² members |
| ChunkGrid.PreloadSquare | PyGameSwarmSurvival/GameMaterials/MeshMap.py:56-59 | the preload square of distance 2R has (4R+1)² members and contains the square of distance R |
| ChunkMesh.GenerateChunkData | PyGameSwarmSurvival/GameMaterials/MeshMap.py:94-171 | the vertex list is the chunk's mesh (each tile's top quad, then its walls, tiles in loop order), and the vertex count is its length, a multiple of 6 |
| ChunkMesh.SampleHeights | PyGameSwarmSurvival/GameMaterials/MeshMap.py:94-107 | the (W+2)×(W+2) grid holds at [i, j] the height of world tile (startX+i−1, startZ+j−1) |
| ChunkMesh.AppendRow | PyGameSwarmSurvival/GameMaterials/MeshMap.py:113-167 | the inner loop appends the meshes of the row's W tiles in order |
| ChunkMesh.AppendTile | PyGameSwarmSurvival/GameMaterials/MeshMap.py:114-167 | one tile appends its top quad, then one wall quad for each side checked in order N, S, E, W whose neighbour read from the halo is strictly lower |
| ChunkMesh.HaloNeighbor | PyGameSwarmSurvival/GameMaterials/MeshMap.py:147 | for an inner tile the neighbour index stays inside the grid and reads the neighbour tile's height |
| ChunkMesh.WallsLength | PyGameSwarmSurvival/GameMaterials/MeshMap.py:146-167 | a tile's walls are 6 vertices per strictly lower side |
| ChunkMesh.TileMeshLength | PyGameSwarmSurvival/GameMaterials/MeshMap.py:121-167 | a tile contributes 6 top vertices plus 6 per strictly lower side |
| ChunkMesh.RowsLength | PyGameSwarmSurvival/GameMaterials/MeshMap.py:112-167 | a block of n rows of w tiles has 6·n·w top vertices plus 6 per wall |
| ChunkMesh.ChunkMeshSize | PyGameSwarmSurvival/GameMaterials/MeshMap.py:169-170 | a chunk's mesh has 6·W² top vertices plus 6 per wall, so its length is a multiple of 6 |
| ChunkMesh.LowerSidesIff | PyGameSwarmSurvival/GameMaterials/MeshMap.py:149 | a side gets a wall iff the tile is strictly higher than the neighbour across it |
| ChunkMesh.WallIff | PyGameSwarmSurvival/GameMaterials/MeshMap.py:140-149 | among the four sides, a wall is emitted on s iff the tile is strictly higher than its neighbour across s |
| ChunkMesh.SharedEdgeWall | PyGameSwarmSurvival/GameMaterials/MeshMap.py:147-149 | of two edge-adjacent tiles, in the same chunk or not, at most one walls the shared edge, and exactly one does when their heights differ |
| ChunkMesh.SharedEdgeSameSegment | PyGameSwarmSurvival/GameMaterials/MeshMap.py:140-145 | the edge that a tile's side names is the same segment as the opposite side of its neighbour |
| ChunkMesh.WallQuadOnEdge | PyGameSwarmSurvival/GameMaterials/MeshMap.py:150-167 | every wall vertex lies on the side's edge, at the tile's or the neighbour's height, with the wall colour |
| ChunkMesh.FlatChunk | PyGameSwarmSurvival/GameMaterials/MeshMap.py:94-171 | on a constant height field a chunk has no walls: exactly 6·W² vertices, 2·W² triangles |
| ChunkMesh.FlatChunkWidthFour | PyGameSwarmSurvival/GameMaterials/MeshMap.py:94-171 | a flat chunk of width 4 has 32 triangles |
| ChunkMesh.TileInChunk | PyGameSwarmSurvival/GameMaterials/MeshMap.py:112-117 | the mesh of every tile of the chunk occurs in the chunk's vertex list |
| ChunkMesh.BorderWall | PyGameSwarmSurvival/GameMaterials/MeshMap.py:147-149 | a border tile higher than its neighbour in the next chunk carries that wall in its own chunk, and the neighbour's chunk does not repeat it |
| ChunkMesh.RowPrefix | PyGameSwarmSurvival/GameMaterials/MeshMap.py:113 | the vertices of the row's first tiles are a prefix of the whole row's |
| ChunkMesh.RowsPrefix | PyGameSwarmSurvival/GameMaterials/MeshMap.py:112 | the vertices of the first rows are a prefix of the whole chunk's |
| TerrainMap.MeshMap.constructor | PyGameSwarmSurvival/GameMaterials/MeshMap.py:15-41 | the map starts empty; with an initial target it preloads, leaving no futures and exactly the successfully generated coordinates of the 2R square Ready |
| TerrainMap.MeshMap.CreateVbo | PyGameSwarmSurvival/GameMaterials/MeshMap.py:173-185 | a new buffer handle differs from every handle a chunk holds; the dictionaries are unchanged |
| TerrainMap.MeshMap.Complete | PyGameSwarmSurvival/GameMaterials/MeshMap.py:227-239 | a finished job moves its coordinate from the futures to the chunks; a failed one is deleted and leaves the coordinate in neither; other chunks are unchanged |
| TerrainMap.MeshMap.SubmitMissing | PyGameSwarmSurvival/GameMaterials/MeshMap.py:212-220 | the futures become the old futures followed by, in loop order, each coordinate of the square that was neither Ready nor already Pending; the chunks are untouched |
| TerrainMap.MeshMap.SubmitRow | PyGameSwarmSurvival/GameMaterials/MeshMap.py:213-220 | the inner loop submits the row's coordinates that are neither Ready nor Pending, keeping the dictionaries disjoint |
| TerrainMap.MeshMap.Update | PyGameSwarmSurvival/GameMaterials/MeshMap.py:198-240 | submission, then the drain: the first `chunks_per_update` done futures in dictionary order leave the futures, the finished ones become Ready in that order, and existing chunks are kept |
| TerrainMap.MeshMap.DrainCompleted | PyGameSwarmSurvival/GameMaterials/MeshMap.py:223-240 | the futures lose exactly the drained ones, and the chunk order gains the drained ones that finished, in order |
| TerrainMap.MeshMap.ProcessPolled | PyGameSwarmSurvival/GameMaterials/MeshMap.py:227-240 | handling one done future extends the processed prefix by that future |
| TerrainMap.MeshMap.ProcessOne | PyGameSwarmSurvival/GameMaterials/MeshMap.py:228-239 | handling one future keeps the record of what was processed so far exact |
| TerrainMap.MeshMap.CompleteAll | PyGameSwarmSurvival/GameMaterials/MeshMap.py:67-80 | after waiting for every job, no future is left and the successful ones became Ready in dictionary order |
| TerrainMap.MeshMap.PreloadInitial | PyGameSwarmSurvival/GameMaterials/MeshMap.py:43-80 | after preload no future is left, and a coordinate of the 2R square is Ready iff it was before or its job succeeded |
| TerrainMap.MeshMap.Render | PyGameSwarmSurvival/GameMaterials/MeshMap.py:250-274 | the chunks drawn are exactly the Ready chunks in the visible square, each once, in dictionary order, with its own buffer and vertex count |
| TerrainMap.MeshMap.Cleanup | PyGameSwarmSurvival/GameMaterials/MeshMap.py:276-286 | every stored buffer is freed once, in dictionary order, no handle twice, and both dictionaries end empty |
| TerrainMap.SubmitMembers | PyGameSwarmSurvival/GameMaterials/MeshMap.py:216 | after submission a coordinate is Pending iff it was before, or it was required and not Ready |
| TerrainMap.SubmitPrefix | PyGameSwarmSurvival/GameMaterials/MeshMap.py:216-220 | submission only appends to the futures dictionary |
| TerrainMap.SubmitFresh | PyGameSwarmSurvival/GameMaterials/MeshMap.py:216-220 | submission never adds a coordinate that is Ready or already Pending, so there is at most one future per coordinate |
| TerrainMap.SquareCovered | PyGameSwarmSurvival/GameMaterials/MeshMap.py:212-220 | after submission every required coordinate is Ready or Pending |
| TerrainMap.PreloadCoverage | PyGameSwarmSurvival/GameMaterials/MeshMap.py:57-80 | after preload a coordinate of the square is Ready iff it was already Ready or its job succeeded |
| TerrainMap.SubmitIdempotent | PyGameSwarmSurvival/GameMaterials/MeshMap.py:216-220 | submitting the same square twice submits nothing the second time |
| TerrainMap.SubmitStep | PyGameSwarmSurvival/GameMaterials/MeshMap.py:216-220 | one more coordinate is appended iff it is neither Ready nor already Pending |
| TerrainMap.MinusMembersAll | PyGameSwarmSurvival/GameMaterials/MeshMap.py:239 | deleting keys leaves exactly the keys not deleted |
| TerrainMap.MinusDistinct | PyGameSwarmSurvival/GameMaterials/MeshMap.py:239 | deleting keys keeps the futures free of duplicates |
| TerrainMap.DoneInWithin | PyGameSwarmSurvival/GameMaterials/MeshMap.py:227 | the done futures are exactly the futures whose job is no longer running |
| TerrainMap.DoneInPrefix | PyGameSwarmSurvival/GameMaterials/MeshMap.py:224-227 | the done futures of a longer prefix extend those of a shorter prefix |
| TerrainMap.DrainExit | PyGameSwarmSurvival/GameMaterials/MeshMap.py:224-226 | the loop stops with the drained set once the futures run out or the counter reaches the limit |
| TerrainMap.KeepMembers | PyGameSwarmSurvival/GameMaterials/MeshMap.py:228-236 | the chunks added are exactly the drained jobs that finished |
| TerrainMap.VisibleMembers | PyGameSwarmSurvival/GameMaterials/MeshMap.py:262-263 | a Ready chunk is selected iff it lies in the visible square |
| TerrainMap.VisibleDistinct | PyGameSwarmSurvival/GameMaterials/MeshMap.py:262-263 | no chunk is drawn twice |
| TerrainMap.DrainBounds | PyGameSwarmSurvival/GameMaterials/MeshMap.py:223-240 | at most `chunks_per_update` futures are drained, counting failures; only done ones; a running one stays Pending; a failed one ends in neither dictionary and can be submitted again |
| MediaHasher.LastIndexOf | DuplicateMediaFinder/DuplicateMediaFinder.java:67 | −1 iff the character does not occur, else the position of its last occurrence |
| MediaHasher.Extension | DuplicateMediaFinder/DuplicateMediaFinder.java:66-68 | the extension is null iff the name has no dot or ends with one |
| MediaHasher.ExtensionSplit | DuplicateMediaFinder/DuplicateMediaFinder.java:66-68 | a present extension is the lower-cased, non-empty, dot-free text after the last dot |
| MediaHasher.ExtensionOfSuffix | DuplicateMediaFinder/DuplicateMediaFinder.java:66-68 | the extension of stem.raw is raw lower-cased, whatever dots the stem holds |
| MediaHasher.KindOf | DuplicateMediaFinder/DuplicateMediaFinder.java:59-60 | a file is an image iff its extension is in the image list, a video iff it is in the video list; a null extension is neither |
| MediaHasher.UpperCaseImage | DuplicateMediaFinder/DuplicateMediaFinder.java:66-71 | "PHOTO.JPG" is hashed as an image |
| MediaHasher.LastDotVideo | DuplicateMediaFinder/DuplicateMediaFinder.java:66-78 | "clip.tar.MKV" is hashed as a video |
| MediaHasher.AverageHash | DuplicateMediaFinder/DuplicateMediaFinder.java:173-191 | the hash is 64 '0'/'1' characters with at least one '1', and character 8y+x is '1' iff pixel (x, y) reaches the integer mean |
| MediaHasher.ReadPixels | DuplicateMediaFinder/DuplicateMediaFinder.java:173-178 | the 8×8 array holds each pixel's value at [x, y] |
| MediaHasher.HashCell | DuplicateMediaFinder/DuplicateMediaFinder.java:185-188 | character 8y+x of the hash is '1' iff pixel (x, y) is at least the mean |
| MediaHasher.AverageHashHasOne | DuplicateMediaFinder/DuplicateMediaFinder.java:181-188 | the hash is binary and has a '1', since the largest pixel is at least the mean |
| MediaHasher.FlatImageHash | DuplicateMediaFinder/DuplicateMediaFinder.java:181-188 | a flat image hashes to 64 ones |
| MediaHasher.Xor | DuplicateMediaFinder/DuplicateMediaFinder.java:134-144 | one XOR step keeps the running hash's length |
| MediaHasher.XorFold | DuplicateMediaFinder/DuplicateMediaFinder.java:128-145 | the nested loops compute the XOR fold of the hashes, null when a later hash is too short |
| MediaHasher.XorAllSmall | DuplicateMediaFinder/DuplicateMediaFinder.java:128-145 | a single hash is returned unchanged; two hashes fold to their XOR, or to null when the second is shorter |
| MediaHasher.XorAllDefined | DuplicateMediaFinder/DuplicateMediaFinder.java:128-155 | the fold is defined iff no later hash is shorter than the first, and then has the first's length |
| MediaHasher.XorAllParity | DuplicateMediaFinder/DuplicateMediaFinder.java:130-145 | for equal-length binary hashes, bit j of the fold is '1' iff an odd number of hashes have '1' there |
| MediaHasher.XorAllStuck | DuplicateMediaFinder/DuplicateMediaFinder.java:153-154 | once a prefix of the fold fails, the whole fold is null |
| MediaHasher.FrameHashes | DuplicateMediaFinder/DuplicateMediaFinder.java:116-119 | each key frame is mapped to its own average hash, in order |
| MediaHasher.HashOutcomes | DuplicateMediaFinder/DuplicateMediaFinder.java:63-156 | an image yields a 64-bit binary hash with a '1'; a video yields a 64-bit binary hash iff it has key frames; any other name yields null |
| MediaHasher.Hash | DuplicateMediaFinder/DuplicateMediaFinder.java:63-156 | `hash` dispatches on the extension and returns the image hash, the key-frame fold or null |
| BKTrees.Hamming | DuplicateMediaFinder/DuplicateMediaFinder.java:298-303 | the distance is at most the first string's length |
| BKTrees.HammingPrefix | DuplicateMediaFinder/DuplicateMediaFinder.java:300-302 | only the first string's length is compared |
| BKTrees.HammingZero | DuplicateMediaFinder/DuplicateMediaFinder.java:298-303 | equal-length strings are at distance 0 iff they are equal |
| BKTrees.HammingSymmetric | DuplicateMediaFinder/DuplicateMediaFinder.java:298-303 | the distance is symmetric for equal lengths |
| BKTrees.HammingTriangle | DuplicateMediaFinder/DuplicateMediaFinder.java:298-303 | the triangle inequality holds for equal lengths, which is what makes the tree search complete |
| BKTrees.NodeInsert | DuplicateMediaFinder/DuplicateMediaFinder.java:258-276 | insertion never changes a node's own hash |
| BKTrees.InsertHashes | DuplicateMediaFinder/DuplicateMediaFinder.java:258-276 | after insertion the tree stores exactly its old hashes plus the new one |
| BKTrees.InsertKeepsBK | DuplicateMediaFinder/DuplicateMediaFinder.java:260-270 | insertion keeps the invariant that every hash under child key d is at distance d from the parent |
| BKTrees.InsertIdempotent | DuplicateMediaFinder/DuplicateMediaFinder.java:266-271 | inserting a hash a second time changes nothing, because the descent stops at the equal hash |
| BKTrees.InsertRootHash | DuplicateMediaFinder/DuplicateMediaFinder.java:266 | inserting the root's own hash into a tree without key 0 creates a key-0 leaf carrying that hash |
| BKTrees.ChildHashes | DuplicateMediaFinder/DuplicateMediaFinder.java:246 | a child's hashes are among its parent's |
| BKTrees.SearchSound | DuplicateMediaFinder/DuplicateMediaFinder.java:279-295 | every hash a search reports is stored in the tree and within distance 5 of the query |
| BKTrees.SearchComplete | DuplicateMediaFinder/DuplicateMediaFinder.java:279-295 | for equal-length hashes, every stored hash within distance 5 of the query is reported |
| BKTrees.ChildInWindow | DuplicateMediaFinder/DuplicateMediaFinder.java:289 | a child holding a hash within 5 of the query has a key in [max(0, d−5), d+5] |
| BKTrees.KeyInWindow | DuplicateMediaFinder/DuplicateMediaFinder.java:289 | by the triangle inequality, a match's key lies in the searched window |
| BKTrees.Search | DuplicateMediaFinder/DuplicateMediaFinder.java:279-295 | the recursive search appends the reported hashes to the result list in visiting order |
| BKTrees.SearchKeys | DuplicateMediaFinder/DuplicateMediaFinder.java:289-294 | the loop over keys appends the reports of the present children, key by key |
| BKTrees.KeysStep | DuplicateMediaFinder/DuplicateMediaFinder.java:290-293 | a present key adds its child's report; an absent key adds nothing |
| BKTrees.BKTree.constructor | DuplicateMediaFinder/DuplicateMediaFinder.java:209-213 | the tree starts as a single node with the first hash and an empty cache |
| BKTrees.BKTree.Insert | DuplicateMediaFinder/DuplicateMediaFinder.java:216-223 | the root gains the hash, keeps the tree invariant, and the cache is unchanged |
| BKTrees.BKTree.FindSimilar | DuplicateMediaFinder/DuplicateMediaFinder.java:226-239 | a repeated query returns the memoised list; a new one searches and memoises the result; with no insert since caching it equals a fresh search |
| MediaGrouping.FirstMappedSpec | DuplicateMediaFinder/DuplicateMediaFinder.java:428-434 | the lookup finds the group of the first similar hash already filed, or none when none is |
| MediaGrouping.LookupGroup | DuplicateMediaFinder/DuplicateMediaFinder.java:428-434 | the loop with `break` returns the group of the first similar hash already filed |
| MediaGrouping.PlaceSteps | DuplicateMediaFinder/DuplicateMediaFinder.java:436-446 | a found group is joined; otherwise a new group is opened under the counter and joined |
| MediaGrouping.PlaceSpec | DuplicateMediaFinder/DuplicateMediaFinder.java:423-446 | one file is appended to exactly one group; the others are unchanged; a new id is the counter value and the counter grows by one only then |
| MediaGrouping.PlaceFiled | DuplicateMediaFinder/DuplicateMediaFinder.java:445-446 | every filed hash still points to a group holding a file with that hash |
| MediaGrouping.PlaceCount | DuplicateMediaFinder/DuplicateMediaFinder.java:445 | one step adds exactly one occurrence of the file to the groups |
| MediaGrouping.GroupWithSpec | DuplicateMediaFinder/DuplicateMediaFinder.java:419-447 | group ids are 1 … counter−1 without gaps, no group is empty, and the counter grows by at most one per file |
| MediaGrouping.GroupWithCount | DuplicateMediaFinder/DuplicateMediaFinder.java:423-447 | each file ends in the groups as many times as it occurs in the list, so every file is in exactly one group |
| MediaGrouping.GroupWithIndexed | DuplicateMediaFinder/DuplicateMediaFinder.java:446 | every file's hash is mapped to a group afterwards |
| MediaGrouping.SimilarLists | DuplicateMediaFinder/DuplicateMediaFinder.java:425 | each file gets the tree's search result for its hash |
| MediaGrouping.RepeatJoinsExisting | DuplicateMediaFinder/DuplicateMediaFinder.java:425-446 | a file whose hash is stored and already filed joins an existing group and opens none |
| MediaGrouping.DuplicateMediaFinder.constructor | DuplicateMediaFinder/DuplicateMediaFinder.java:313-315 | there are no groups, and the counter starts at 1 |
| MediaGrouping.DuplicateMediaFinder.GroupSimilarFiles | DuplicateMediaFinder/DuplicateMediaFinder.java:419-448 | the groups and counter are those of the greedy grouping, file by file, over the tree's search results; the tree is unchanged |
| Text.Lower | DuplicateMediaFinder/DuplicateMediaFinder.java:68 | lower-casing maps A–Z to a–z and keeps every other character |
| Text.LowerIdempotent | DuplicateMediaFinder/DuplicateMediaFinder.java:68 | lower-cased text has no capitals and lower-casing it again changes nothing |
| Text.PadDecimalValue | JavaScriptDashboard/main.py:297 | a zero-padded field reads back as its number |
| Text.DecimalValuePad | JavaScriptDashboard/main.py:297 | a digit string is the zero-padded rendering of its value |
| Text.LexLessIrreflexive | JavaScriptDashboard/main.py:173 | no string is less than itself |
| Text.LexLessTransitive | JavaScriptDashboard/main.py:173 | Python's string order is transitive |
| Text.LexLessTotal | JavaScriptDashboard/main.py:173 | of two different strings, one is less |
| Text.LexLessDigits | JavaScriptDashboard/main.py:322 | on digit strings of equal length, string order is numeric order |
| AirtableDates.ParseIso | JavaScriptDashboard/main.py:295 | a parsed date is a real calendar date in years 1 to 9999 |
| AirtableDates.ParseIsoText | JavaScriptDashboard/main.py:295-297 | the canonical "YYYY-MM-DD" text of a date parses back to that date |
| AirtableDates.ParsedFields | JavaScriptDashboard/main.py:295 | a parsed 10-character text is four digits, a dash, two digits, a dash and two digits, and the date holds those values |
| AirtableDates.IsoTextOfParse | JavaScriptDashboard/main.py:295 | a parsed 10-character text is the date's canonical text |
| AirtableDates.AirtableTextFields | JavaScriptDashboard/main.py:297 | the Airtable text is MM/DD/YYYY with each field holding the date's month, day and year |
| AirtableDates.FormatDateOutcome | JavaScriptDashboard/main.py:292-300 | reformatting succeeds iff the text parses, gives 10 characters, and otherwise raises 400 |
| AirtableDates.FormatCanonical | JavaScriptDashboard/main.py:292-297 | "YYYY-MM-DD" becomes "MM/DD/YYYY" with the same digits |
| AirtableDates.UnpaddedAccepted | JavaScriptDashboard/main.py:295-297 | "2024-1-5" is accepted and written "01/05/2024" |
| AirtableDates.NoLeapDay | JavaScriptDashboard/main.py:293-300 | "2023-02-29" is rejected with 400 |
| AirtableDates.PadInjective | JavaScriptDashboard/main.py:297 | two numbers have the same padded rendering iff they are equal |
| AirtableDates.FieldOrder | JavaScriptDashboard/main.py:173 | padded fields of equal width compare as strings as their numbers do |
| AirtableDates.DashOrder | JavaScriptDashboard/main.py:173 | "a-x" < "c-y" for fields of equal width iff a < c, or a = c and x < y |
| AirtableDates.IsoOrder | JavaScriptDashboard/main.py:173 | on canonical dates, string order is calendar order |
| AirtableDates.UnpaddedMisorder | JavaScriptDashboard/main.py:322 | on accepted but unpadded dates, string order and calendar order can disagree ("2024-10-01" < "2024-9-1") |
| AirtableDates.OrdinalNext | JavaScriptDashboard/main.py:197 | the next calendar day has the next day number |
| AirtableDates.YearLength | JavaScriptDashboard/main.py:197 | the twelve months of a year add up to its length |
| ChartJson.ReadCategories | JavaScriptDashboard/main.py:75-80 | each category id is listed once, in first-insertion order, exactly when it has a name |
| ChartJson.ReadCategoriesOk | JavaScriptDashboard/main.py:75-78 | reading the categories raises KeyError iff some record lacks an id or a name |
| ChartJson.CategoriesErrSticks | JavaScriptDashboard/main.py:75-78 | the first KeyError ends the read |
| ChartJson.CategoryIds | JavaScriptDashboard/main.py:78 | the listed ids are exactly the records' ids |
| ChartJson.LastNameWins | JavaScriptDashboard/main.py:78 | a category's name comes from its last record |
| ChartJson.LastCategoryWins | JavaScriptDashboard/main.py:79-80 | a product listed by several categories maps to the last one |
| ChartJson.UnlistedProduct | JavaScriptDashboard/main.py:79-80 | a product no category lists maps to none |
| ChartJson.AssignAllSpec | JavaScriptDashboard/main.py:79-80 | the products of one category map to it; other products keep their mapping |
| ChartJson.UncategorisedIgnored | JavaScriptDashboard/main.py:89-106 | a product without a category, or with an empty id, adds no count |
| ChartJson.BumpAtGet | JavaScriptDashboard/main.py:95 | one increment adds one to exactly one (category, month) counter |
| ChartJson.CountProductsGet | JavaScriptDashboard/main.py:92-95 | one record adds to (category, month) the number of its products in the category |
| ChartJson.CountsArePairs | JavaScriptDashboard/main.py:89-106 | the count for (category, month) equals the number of (record, product) pairs with the product in the category and the date in the month, and a month is a key iff that number is positive |
| ChartJson.CountRecordsOk | JavaScriptDashboard/main.py:89-102 | counting fails iff some record lacks its date or has one `strptime` rejects |
| ChartJson.CountErrSticks | JavaScriptDashboard/main.py:89-106 | the first error ends the count |
| ChartJson.CountRecordsKeys | JavaScriptDashboard/main.py:87-106 | every month key stored under a category has a positive count |
| ChartJson.InsertSortedSpec | JavaScriptDashboard/main.py:118 | inserting into an ascending list keeps it ascending and adds exactly that month |
| ChartJson.SortUniqueSpec | JavaScriptDashboard/main.py:111-118 | `sorted(set(...))` is strictly ascending with the same members |
| ChartJson.ChartRows | JavaScriptDashboard/main.py:110-120 | one chart has its category's name, strictly ascending months that are the union of its order and usage months, and each row's counts, at least one positive |
| ChartJson.ChartJsonSpec | JavaScriptDashboard/main.py:70-122 | one chart per category in insertion order, each with ascending months and each row's counts equal to the matching (record, product) pairs |
| ChartJson.ReadCategoryRecords | JavaScriptDashboard/main.py:75-80 | the category loop computes the category tables or the first KeyError |
| ChartJson.CountEventRecords | JavaScriptDashboard/main.py:89-106 | the record loop computes the per-category, per-month counts or the first error |
| ChartJson.ParseChartRecords | JavaScriptDashboard/main.py:70-122 | the whole function computes the charts or the first error |
| TableJson.Put | JavaScriptDashboard/main.py:157 | a dict update keeps keys unique and equal to the contents |
| TableJson.ProductCategories | JavaScriptDashboard/main.py:151-157 | the product-to-category dict has unique keys in insertion order |
| TableJson.ProductCategoriesOk | JavaScriptDashboard/main.py:153-154 | step 1 raises KeyError iff some category lacks a name |
| TableJson.PutAllSpec | JavaScriptDashboard/main.py:156-157 | a category's products map to its name; others keep their value |
| TableJson.LastCategoryName | JavaScriptDashboard/main.py:151-157 | a product listed by several categories maps to the last one's name |
| TableJson.UncategorisedProduct | JavaScriptDashboard/main.py:151-157 | a product no category lists gets no entry and no alert |
| TableJson.MapProductCategories | JavaScriptDashboard/main.py:151-157 | the loop computes the product-to-category dict or the KeyError |
| TableJson.ListingsMember | JavaScriptDashboard/main.py:161-164 | a product's listings are exactly the expiration fields of the orders that list it |
| TableJson.ExpireAt | JavaScriptDashboard/main.py:168-174 | one listing updates only that product's stored expiration, as the first/earlier rule says |
| TableJson.ExpirationsAt | JavaScriptDashboard/main.py:160-174 | each product's stored expiration is what the first-then-earliest rule gives over its listings in order |
| TableJson.ExpirationsOk | JavaScriptDashboard/main.py:160-174 | step 2 succeeds iff every order has a product field and no product compares a later date with a stored None |
| TableJson.ExpirationsNeedProducts | JavaScriptDashboard/main.py:162 | an order without a product field raises |
| TableJson.EarliestOk | JavaScriptDashboard/main.py:168-174 | a product's listings fail only when the first is None and a later one is a date |
| TableJson.EarliestFirst | JavaScriptDashboard/main.py:168-169 | a listed product gets an entry, None exactly when its first order has no date |
| TableJson.EarliestIsMinimum | JavaScriptDashboard/main.py:171-174 | a stored date is one of the product's dates and no listed date is less as a string |
| TableJson.EarliestExpiration | JavaScriptDashboard/main.py:160-174 | a product has an entry iff some order lists it, and the entry is the earliest rule's result |
| TableJson.ExpirationDates | JavaScriptDashboard/main.py:160-174 | the nested loops compute the expirations or the first error |
| TableJson.UsageDatesAt | JavaScriptDashboard/main.py:177-183 | a product's usage dates are those of the records listing it, once per listing, in order |
| TableJson.UsageDatesOk | JavaScriptDashboard/main.py:178-180 | step 3 raises iff a record lacks its product field, or lacks its date while listing a product |
| TableJson.CollectUsageDates | JavaScriptDashboard/main.py:177-183 | the loop computes the usage dates or the first KeyError |
| TableJson.ProductNameFirst | JavaScriptDashboard/main.py:208-212 | the name comes from the first product record with the id; a missing name raises |
| TableJson.ProductNameMissing | JavaScriptDashboard/main.py:208-215 | no record with the id gives no name |
| TableJson.ProductNameFound | JavaScriptDashboard/main.py:208-212 | a name found belongs to the first record with the id |
| TableJson.FindProductName | JavaScriptDashboard/main.py:208-212 | the loop with `break` computes the first matching record's name |
| TableJson.ClassifySpec | JavaScriptDashboard/main.py:199-205 | Critical iff days ≤ CRITICAL_DAYS; Warning iff above that and ≤ WARNING_DAYS; no alert otherwise; no Warning when WARNING_DAYS ≤ CRITICAL_DAYS |
| TableJson.DaysCount | JavaScriptDashboard/main.py:197 | a later expiration is one more day away; today counts 0 days, or −1 once midnight has passed |
| TableJson.AlertFacts | JavaScriptDashboard/main.py:188-225 | an alert has type "Expiration", the product's category, its stored date (which parses), the first matching record's non-empty name, and the urgency its days give |
| TableJson.AlertDue | JavaScriptDashboard/main.py:188-225 | a product with a parsable date within the thresholds and a named record gets exactly that alert |
| TableJson.AlertSkipped | JavaScriptDashboard/main.py:190-215 | no date, too many days or no matching record means no alert; an unparsable date raises ValueError |
| TableJson.AlertsOk | JavaScriptDashboard/main.py:188-225 | the alert loop succeeds iff every product's step does |
| TableJson.AlertsCollect | JavaScriptDashboard/main.py:188-225 | the alerts are exactly the alerts of the products' steps, at most one per product |
| TableJson.BuildAlerts | JavaScriptDashboard/main.py:188-225 | the loop computes the alerts or the first error |
| TableJson.ParseTableRecords | JavaScriptDashboard/main.py:145-228 | the whole function computes the alerts or the first error, steps in order |
| Reports.WritesInOrder | JavaScriptDashboard/main.py:307-345 | what was written is the checked fields of a prefix of the items; success means all were written and accepted; a failed check stops before that item; a rejected write raises 500 after it |
| Reports.AllChecksOkWrites | JavaScriptDashboard/main.py:334-339 | when every item passes its checks, the loop succeeds iff every write is accepted |
| Reports.PurchaseItemRequired | JavaScriptDashboard/main.py:309-331 | a missing product or order date raises 400; any check failure is 400; a passing item writes its product, reformatted order date and an expiration date iff one was given |
| Reports.FormatBeforeCompare | JavaScriptDashboard/main.py:318-323 | both dates are reformatted (and may raise) before the string comparison that rejects an expiration before the order date |
| Reports.CanonicalExpiration | JavaScriptDashboard/main.py:322-323 | for canonical dates the string check rejects exactly an expiration before the order date |
| Reports.UsageItemAccepted | JavaScriptDashboard/main.py:358-374 | a usage item passes iff it has a product and a parsable date, and then writes them reformatted; failures are 400 |
| Reports.ChecksNeverServerError | JavaScriptDashboard/main.py:313-323 | item checks raise only 400, so a 500 always comes from a write |
| Reports.ReportSucceeds | JavaScriptDashboard/main.py:305-349 | a report succeeds iff `items` is a non-empty list whose items all pass and whose writes are all accepted; a bad `items` raises 400 and writes nothing |
| Reports.PurchasePartialWrites | JavaScriptDashboard/main.py:302-349 | a 400 on a purchase leaves the items before the failing one written; a 500 follows the rejected write |
| Reports.WritesPrefix | JavaScriptDashboard/main.py:308-339 | after the first i items are checked and accepted, the rest of the loop runs on the remaining items |
| Reports.WritesStop | JavaScriptDashboard/main.py:314-339 | a failed check stops before the write; a rejected write stops after it |
| Reports.Table.constructor | JavaScriptDashboard/main.py:43-48 | a table starts with nothing written |
| Reports.Table.Write | JavaScriptDashboard/main.py:43-48 | a write appends one record and returns the reply for that write |
| Reports.Submit | JavaScriptDashboard/main.py:302-349 | the handler's loop returns the report's result and writes exactly the records sent, in order |
| Reports.SubmitPurchaseReport | JavaScriptDashboard/main.py:302-349 | `purchase_report` as a loop over the Orders table |
| Reports.SubmitUsageReport | JavaScriptDashboard/main.py:351-391 | `usage_report` as a loop over the Usages table |
| ChartView.FromIndex | JavaScriptDashboard/frontend/scripts/chart.js:61 | a month number turns into the year and month that carry it |
| ChartView.Prev | JavaScriptDashboard/frontend/scripts/chart.js:65 | stepping back one month lowers the month number by one, across year ends too |
| ChartView.IndexInjective | JavaScriptDashboard/frontend/scripts/chart.js:61-66 | a year and month are fixed by their month number |
| ChartView.MaxMonthKinds | JavaScriptDashboard/frontend/scripts/chart.js:51-55 | `Math.max` over a chart's months is −∞ iff it has no rows, and NaN iff some month does not parse |
| ChartView.MaxMonthSpec | JavaScriptDashboard/frontend/scripts/chart.js:51-55 | a finite maximum is a month of the chart and no month is later |
| ChartView.LatestMonthSpec | JavaScriptDashboard/frontend/scripts/chart.js:49-57 | the latest month is at least the start value, at least every chart's finite maximum, and is either the start or one chart's maximum |
| ChartView.LatestMonthRange | JavaScriptDashboard/frontend/scripts/chart.js:49-57 | the latest month lies between January 1970 and the largest month a "YYYY-MM" text can name |
| ChartView.Labels | JavaScriptDashboard/frontend/scripts/chart.js:63-66 | n months give n labels |
| ChartView.Window | JavaScriptDashboard/frontend/scripts/chart.js:60-68 | the window has 12 labels |
| ChartView.Last12Months | JavaScriptDashboard/frontend/scripts/chart.js:47-69 | `getLast12Months` returns the 12 labels ending at the latest month over all charts, which lies in range |
| ChartView.MonthsEndingAt | JavaScriptDashboard/frontend/scripts/chart.js:60-68 | the loop that prepends and steps back builds the 12-month window ending at the given month |
| ChartView.WindowStart | JavaScriptDashboard/frontend/scripts/chart.js:60-68 | the window is the labels of 12 consecutive months starting 11 months before the latest |
| ChartView.LabelIndex | JavaScriptDashboard/frontend/scripts/chart.js:64 | a label reads back as its month |
| ChartView.LabelOrder | JavaScriptDashboard/frontend/scripts/chart.js:64 | a month's label is less than the next month's |
| ChartView.MonthKeyLabel | JavaScriptDashboard/frontend/scripts/chart.js:64 | a label has the back end's "%Y-%m" month key form, so labels and chart rows can match |
| ChartView.LabelsIndexed | JavaScriptDashboard/frontend/scripts/chart.js:63-66 | label k of consecutive labels is the start month plus k |
| ChartView.LabelsAscending | JavaScriptDashboard/frontend/scripts/chart.js:63-66 | consecutive labels are strictly ascending |
| ChartView.FormatDataForChart | JavaScriptDashboard/frontend/scripts/chart.js:73-82 | one point per month |
| ChartView.FormatPoint | JavaScriptDashboard/frontend/scripts/chart.js:75-80 | a month without a row gets (0, 0); otherwise the first row for the month gives its orders and usages |
| ChartView.FindFirst | JavaScriptDashboard/frontend/scripts/chart.js:76 | `find` returns the first row with the month |
| ChartView.FindNone | JavaScriptDashboard/frontend/scripts/chart.js:76 | `find` returns nothing iff no row has the month |
| ChartView.ChartPoints | JavaScriptDashboard/frontend/scripts/chart.js:73-82 | on a chart built by the back end, each point holds that month's order and usage counts, zero for months without rows |

## Left out

- Concurrency.
  - The thread pool, `concurrent.futures.wait`, the Java executors and the locks are not modelled.
  - Everything runs sequentially. A job's status is the `poll` oracle, and the preload's outcome is the `succeeds` predicate.
- Foreign calls are modelled abstractly.
  - OpenGL calls (`glGenBuffers`, the draw calls, `glDeleteBuffers`) are handle allocation, `Draw` records and the list of freed handles.
  - `noise.pnoise2` and the fifth-power height are an uninterpreted `HeightField`.
  - `colorsys` colouring and the 0.7 darkening are reduced to a top or wall shade.
  - Heights are reals. The source's float32 rounding of a height is taken to be part of the height function.
- TerrainMap.MeshMap.PreloadInitial: the coordinates are submitted in the row-major order of the square, not in the arbitrary iteration order of the Python `set`. What ends Ready is the same either way; only the dictionaries' key order can differ.
- TerrainMap.MeshMap.SubmitMissing: the loop collects the new futures in a local sequence and assigns the dictionary once at the end. The result is the same as inserting one by one.
- The MeshMap constructor requires `chunk_width > 0` and `chunks_per_update > 0`. The source divides by the width and gives the thread pool `chunks_per_update` workers, which must be positive.
- The `__main__` demo, its event loop and the camera are not part of this model.
- In the media finder, the following are not modelled:
  - `ImageIO` decoding, `Graphics2D` resizing and the ffmpeg subprocess. An image is given as its 8x8 grey values and a video as its key frames.
  - A failed decode, which returns null from `getPerceptualHash`.
  - Directory walking, `moveFilesToOutput`, `Files.move` and `main`'s building of the tree from the files.
- BKTrees.BKTree.Insert: tree nodes are values, so a node is rebuilt rather than mutated in place. The node locks play no part.
- BKTrees.BKTree.FindSimilar: the cache is not invalidated by later inserts, as in the source. The contract says a cached list equals a fresh search only while nothing was inserted since.
- BKTrees.Hamming requires the second string to be at least as long as the first. With a shorter second string the source throws an exception that nothing catches.
- Text.Lower: `toLowerCase` is modelled for ASCII letters only, so non-ASCII case folding is not covered.
- MediaGrouping.DuplicateMediaFinder.GroupSimilarFiles: `groupCounter` is an unbounded integer, so the 32-bit overflow of `int` is not modelled.
- In the dashboard back end, the following are not modelled:
  - Airtable HTTP, FastAPI routing and file responses, and `get_product_record_id`.
  - Non-dict items and non-string field values. A field is a string or absent.
  - Fields of any other type, such as a number in place of a date. These would raise `TypeError` in the source.
- AirtableDates.ParseIso: it follows CPython's `%Y-%m-%d` expressions for ASCII digits only. `\d` also accepts other Unicode digits, and these are not modelled.
- AirtableDates.IsoTextOfParse: it excludes a day written with a leading space (" 5"). That form parses but is not canonical.
- TableJson.ParseTableRecords: `datetime.now()` is the `Settings` parameter (today's date and whether midnight has passed). The usage dates are collected, and their errors raised, but no alert uses them.
- TableJson.ProductCategories: no separate lemma says that the alerts follow the dict's key order. That order is the `keys` sequence, which the alert loop walks.
- Reports.WritesInOrder: the shape of a 500 error is proved only under the hypothesis that checks never raise 500. Reports.ChecksNeverServerError discharges that hypothesis for the two report handlers.
- ChartView.Last12Months, the JavaScript `Date` details:
  - Dates are taken in UTC, with no time zone.
  - `parseInt` is modelled only on "DDDD-DD" months. Other shapes count as NaN.
  - Two-digit years map to 1900 and later, as `new Date` does.
- ChartView.WindowStart: the facts about the window's labels are stated through WindowStart, LabelsIndexed and LabelsAscending, not in a single lemma about the window.
- Chart.js rendering and the DOM work in `processChartData` are not modelled.
