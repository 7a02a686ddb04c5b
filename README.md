# Member wall: glyphs, packing, flattening and request parameters

The member wall is an HTTP endpoint. It takes a list of lock addresses and
returns an SVG mosaic with one glyph per key holder. The mosaic is a grid of
square tiles sized to fit a `maxWidth x maxHeight` canvas. This project
models the deterministic logic of that endpoint and proves properties of it:

- `glyph.dfy` (module `Glyph`). Each owner gets a glyph. A numeric seed picks
  one of six fixed three-circle layouts (`seed % 6`), a rotation
  (`(seed % 36) * 10` degrees) and a mirror transform (odd seeds only). The
  colour seed is characters 2 to 7 of the address in upper case.
- `packing.dfy` (module `Packing`). The tile-size arithmetic. It starts from
  an ideal side, derives a column count with `ceil`, corrects the side to fit
  the width, and corrects it once more if the rows overflow the height. Each
  member is then placed at column `i % byRow`, row `floor(i / byRow)`. This is
  written as a method whose locals are reassigned in the program's order,
  plus a function for the positions.
- `members.dfy` (module `Members`). The fetched locks are flattened into
  member records. The program's `reduce((a, v) => [...v, ...a], [])` is
  proved equal to the per-lock lists concatenated in reverse lock order. The
  exact position of every key is proved too.
- `handler.dfy` (module `Handler`). The query handling. `locks` is split on
  commas, and the request is rejected with 422 when that value is missing or
  empty. `maxWidth` and `maxHeight` default to 800 and 500.

Abstractions:

- The seed is taken as a natural number. The program gets it with `parseInt`
  on the address. `parseInt` reads a `0x` string as hexadecimal into a double.
  A 160-bit address is rounded by that, and the rounding is not modelled.
  One consequence follows anyway. Every double at or above 2^53 is an even
  integer, and every double above 2^54 is a multiple of 4. Almost every real
  address lies above 2^54. So for those addresses `translateAndScale` returns
  `""`, and only the original, chomp and tail layouts are chosen
  (`Glyph.SeedsDivisibleByFour`).
- Geometry is exact `real` arithmetic. The ideal side
  `sqrt(maxWidth * maxHeight / count)` is an input (any positive real),
  because the model has no square root. `Math.ceil` is defined from `.Floor`.
  Over exact reals the two corrections have closed forms. After the width
  step the side is `maxWidth / byRow`. After the height step, when it runs,
  the side is `maxHeight / numberOfRows`, which is smaller. So the width stays
  respected even though it is not re-checked.
- Facts about the code that the model keeps:
  - The seed comes from `parseInt` of the whole address, hexadecimal prefix
    included.
  - The grey palette assigned at members.js line 128 is always overwritten at
    line 136, so no fallback palette exists.
  - The code has no error for an empty member list and no error for
    degenerate geometry.
  - The mirror transform is spelt `tranlate`, as in the code.

## Model

| member | source | states |
|---|---|---|
| `Glyph.Circles` | pages/api/members.js:78-89 | the layout for a seed is one of the six tables and has exactly three points |
| `Glyph.OptionsDistinct` | pages/api/members.js:61-86 | the six layout tables are pairwise different |
| `Glyph.CirclesSameIff` | pages/api/members.js:78-89 | two seeds get the same layout if and only if they are congruent modulo 6 |
| `Glyph.CirclesFirstSeeds` | pages/api/members.js:61-88 | seeds 0..5 select original, striped, chomp, bite, tail, triad in that order, with the literal coordinates |
| `Glyph.DegreesOfRotation` | pages/api/members.js:96-99 | the rotation is a multiple of 10 in [0, 350] and its tenth is the seed modulo 36 |
| `Glyph.RotationSameIff` | pages/api/members.js:96-99 | two seeds get the same rotation if and only if they are congruent modulo 36 |
| `Glyph.TranslateAndScale` | pages/api/members.js:107-110 | the transform is empty exactly for even seeds, and otherwise is the literal mirror transform |
| `Glyph.GlyphPeriodic` | pages/api/members.js:78-110 | seeds congruent modulo 36 get the same layout, rotation and mirroring |
| `Glyph.SeedsDivisibleByFour` | pages/api/members.js:78-110 | a seed that is a multiple of 4 is never mirrored and selects only the original, chomp or tail layout |
| `Glyph.SeedThirtySeven` | pages/api/members.js:78-110 | seed 37 gives the striped layout, 10 degrees, and mirroring |
| `Glyph.UpperChar` | pages/api/members.js:131 | lower-case ASCII letters move to upper case, every other character is unchanged, and no lower-case letter remains |
| `Glyph.MainColor` | pages/api/members.js:131 | the colour seed is the address from index 2 to 8 (end points clamped to the length), in upper case; six characters for addresses of length 8 or more |
| `Glyph.MainColorOfHexAddress` | pages/api/members.js:131 | for a hex address the colour seed is six upper-case hex digits |
| `Packing.Ceil` | pages/api/members.js:209 | the result is the least integer not below its argument |
| `Packing.ColumnCount` | pages/api/members.js:209 | byRow >= 1 is the fewest columns of the ideal side that span the width, and width / byRow <= ideal side |
| `Packing.WidthCorrection` | pages/api/members.js:210-211 | after subtracting the overshoot, the side is exactly width / byRow |
| `Packing.RowCount` | pages/api/members.js:213 | numberOfRows is the fewest rows of byRow tiles that hold all members, and it is zero only for zero members |
| `Packing.HeightCorrection` | pages/api/members.js:214-218 | after subtracting the overflow, the side is exactly height / numberOfRows |
| `Packing.HeightFittedSide` | pages/api/members.js:216-218 | when the rows overflow, the height-fitted side is positive and below the width-fitted side |
| `Packing.Pack` | pages/api/members.js:202-220 | the side is min(width / byRow, height / numberOfRows) for at least one member; the height step applies exactly when the rows overflow; side is positive and at most the ideal side; the grid fits the canvas |
| `Packing.Column` | pages/api/members.js:225 | a member's column is below byRow |
| `Packing.Row` | pages/api/members.js:226 | a member's row r is the one whose byRow tiles hold its index: r * byRow <= i < (r + 1) * byRow |
| `Packing.Positions` | pages/api/members.js:224-230 | there is exactly one position per member, index-aligned, and the first member of a non-empty mosaic is at (0, 0) |
| `Packing.RowBelowCount` | pages/api/members.js:226 | every member's row is below the row count |
| `Packing.TilesInsideCanvas` | pages/api/members.js:224-230 | every tile of a fitting grid lies inside the canvas: 0 <= x, x + side <= width, 0 <= y, y + side <= height |
| `Packing.PositionsRowMajor` | pages/api/members.js:224-230 | the next member is one tile to the right, or at x = 0 one row down after every byRow members |
| `Packing.CellsDistinct` | pages/api/members.js:225-226 | different members get different grid cells |
| `Packing.TotalAreaFits` | pages/api/members.js:204-218 | the area of all tiles together is at most the canvas area |
| `Packing.Layout` | pages/api/members.js:202-235 | the column count, row count and side are those of the packing (fewest columns and rows, side min(width / byRow, height / numberOfRows)); each member is paired with the position of its own index, and every tile lies inside the canvas |
| `Packing.FourOnTwoHundredByHundred` | pages/api/members.js:202-230 | four members on a 200 x 100 canvas with ideal side 70.71 give side 50 at (0,0), (50,0), (100,0), (0,50) |
| `Members.ToMember` | pages/api/members.js:44-50 | a record keeps the key's id and expiration, has the owner's address as `owner`, and has its lock's address and name |
| `Members.LockMembers` | pages/api/members.js:44-51 | one record per key of the lock, in key order |
| `Members.Groups` | pages/api/members.js:43-52 | one record list per lock, index-aligned with the locks |
| `Members.Reduce` | pages/api/members.js:53-55 | the fold is the lists in reverse order, concatenated, followed by the initial accumulator |
| `Members.GetMembers` | pages/api/members.js:42-55 | the result is the per-lock record lists concatenated in reverse lock order |
| `Members.GetMembersCons` | pages/api/members.js:53-55 | the records of the first lock come after the records of all later locks |
| `Members.GetMembersLength` | pages/api/members.js:42-55 | the output length is the total number of keys |
| `Members.GetMembersAt` | pages/api/members.js:42-55 | key j of lock k is at index (keys of locks after k) + j, with its owner's address and its own lock's address and name |
| `Members.LaterLocksFirst` | pages/api/members.js:53-55 | every key of a later lock comes before every key of an earlier lock |
| `Members.KeyAt` | pages/api/members.js:42-55 | every output index is the index of some key of some lock |
| `Handler.Truthy` | pages/api/members.js:242-249 | JavaScript truthiness of a query value: a missing value and the empty string are falsy, every non-empty string is truthy |
| `Handler.Split` | pages/api/members.js:243 | one piece more than there are commas, and no piece holds a comma |
| `Handler.JoinSplit` | pages/api/members.js:243 | joining the pieces with commas gives back the query value |
| `Handler.SplitJoin` | pages/api/members.js:243 | splitting comma-free pieces joined by commas gives back the pieces |
| `Handler.OrDefault` | pages/api/members.js:248-249 | the default is used exactly when the value is missing or empty; otherwise the raw value is kept |
| `Handler.Handle` | pages/api/members.js:240-249 | 422 with the fixed message exactly when `locks` is missing or empty; otherwise at least one lock, the split of the value, and 800/500 defaults |

## Left out

- Packing.Pack: for zero members the program computes an infinite ideal side, `byRow = 0`, and `NaN` for the side and the row count. The model instead has `byRow >= 1` and a positive side for that case (and so does Packing.Layout). The only result the two share is the empty list of tiles.
- Fetching locks from the subgraph, the GraphQL query text built with `JSON.stringify`, and `res.json()`: network I/O and a library serialiser. The model takes the fetched locks as a value.
- The colour palette: the `color-scheme` library's triadic pastel algorithm is foreign code. Only its input (`MainColor`) is modelled.
- All SVG/React markup: the rotate/transform attribute string, the etherscan link, the `width * 1.5` and `memberSide / 2` sizes, and `renderToString`.
- Floating point: the rounding of `Math.sqrt` and of the packing arithmetic. The ideal side is an input, and sizes are exact reals.
- `parseInt` of the address: the hexadecimal parse, its rounding to a double, and its `NaN` result. The seed is a natural number parameter.
- JavaScript coercion of `maxWidth`/`maxHeight` from query strings to numbers: `Packing` assumes positive reals. `Handler` keeps the raw text.
- A repeated `locks` parameter, which Express delivers as an array, making `split` throw.
- Response status and headers, `console.log`, and the async flow of the handler.
- UpperChar: upper-cases ASCII letters only, not the full Unicode mapping of `toUpperCase`. Addresses are ASCII.
