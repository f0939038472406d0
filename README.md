# mandelbrot-cuda: option processing and tile colouring, in Dafny

This project models two parts of `main.c` of the mandelbrot-cuda renderer.

**Option processing.** `main` fills a `struct prog_opts` with `default_options`. Then `parse_options` walks the command line with `getopt(argc, argv, "c:d:g:hi:r:s:")`:

- Each option overwrites the fields it owns.
- `-d` and `-i` read their argument with `sscanf("%d")`.
- `-g` and `-r` read theirs with `sscanf("%dx%d")`.
- `-c` reads four floats.
- `-s` stores a copy of the palette path.

Processing ends in one of four ways:

- `-h` exits with status 0.
- A malformed argument exits with status 1.
- When the options run out, a missing `-s` exits with status 1.
- Otherwise the function returns with the options set.

**Tile colouring.** The tile loop sits under `#if 0` (main.c:262-297). For every tile of the grid, in order, it colours the tile's escape-time field into a shared RGB buffer:

- A pixel that converged (negative value) becomes black.
- Any other pixel becomes palette entry `(COLOR_DENSITY_NUM * v / COLOR_DENSITY_DEN) mod numcolors`.

The loop counts converged and diverged pixels. It saves the buffer as `image-<n>.png` only when the tile has both kinds of pixel. `n` advances for every tile.

Files:

- `decimal.dfy` — decimal text.
  - The digits `printf("%d")` writes.
  - The `%d` conversion of `scanf` as section 7.21.6.2 of ISO C11 defines it: white space skipped, an optional sign, the longest run of digits, and the matching and input failures.
- `scanf.dfy` — the two argument shapes `"%d"` and `"%dx%d"`. Each gives `sscanf`'s return value (EOF = -1, or the number of values stored) and the values it stored.
- `options.dfy` — the options part.
  - `Config` is the value of a `prog_opts`, and `Token` is one option as `getopt` returns it.
  - `Apply` and `Run` are the functional specification of the switch and of the whole loop.
  - `ProgOpts` is the record, updated in place by `HandleOption`, proved against `Apply` and `Stored`, and by `ParseOptions`, proved against `Run`.
- `tiles.dfy` — the palette and the pixel rule.
  - `Render` and the counts are specifications.
  - `ColorTile` is the in-place pixel loop over an `array`.
  - `RenderTiles` is the tile loop, proved against `Emissions`, the sequence of images it saves.
- `wrappers.dfy` — `Option`, which stands for C's nullable pointer.

## Model

| member | source | states |
|---|---|---|
| Options.DefaultConfig | main.c:72-91 | The defaults are positive sizes, a positive iteration budget and density, and a region with min below max on both axes. No palette path is set (NULL). |
| Options.ProgOpts.Default | main.c:72-91 | Filling a record field by field gives exactly the default configuration. |
| Options.Apply | main.c:106-202 | One switch case stops with `terminate` exactly for -h. It stops with `error` exactly when the argument is malformed (sscanf matched fewer values than the format has). Otherwise processing continues. |
| Options.ApplyOverwritesOwnFields | main.c:107-200 | A well-formed option sets the fields it owns to the values its argument carries. Every other field group is unchanged. |
| Options.FieldsDetermineConfig | main.c:11-25 | The field groups the options own cover the whole record, so "no group changed" means "nothing changed". |
| Options.Run | main.c:105-217 | `parse_options` either returns a configuration that has a palette path or exits, and the exit status is 0 or 1. |
| Options.FirstStopDecides | main.c:151-155 | The first -h or malformed argument decides the outcome, whatever follows it: status 0 for -h, status 1 for a malformed argument. |
| Options.NoStopOutcome | main.c:205-209 | With no stopping option, the options are configured exactly when a path was already set or some -s occurs. Otherwise the status is 1. |
| Options.PathRequired | main.c:205-209 | Starting from the defaults, every configured run contained an -s option. |
| Options.AbsentOptionKeepsFields | main.c:105-203 | An option that never occurs leaves its fields as they were. |
| Options.LastOccurrenceWins | main.c:105-203 | In a configured run, an option's fields hold the values of its last occurrence, so a later occurrence overrides an earlier one. |
| Options.HandleOption | main.c:106-202 | The in-place switch case raises `error` exactly for a malformed argument and `terminate` exactly for -h. The record afterwards holds every value the case's `sscanf` stored, even when it then reports an error (`Stored`); -h leaves it unchanged. When it does neither, the new record is what `Apply` gives. |
| Options.IsMalformed | main.c:114-183 | A -d or -i argument is malformed exactly when `%d` stored no value. A -g or -r argument is malformed exactly when `%dx%d` stored fewer than two. -h, -s and an unrecognised option are never malformed. |
| Options.Stored | main.c:107-200 | Whatever a switch case's `sscanf` or `strncpy` stores lands in the fields its own option owns. Every other field group keeps its value, even when the argument is malformed and the process is about to exit. How the stored values relate to `Apply` is stated by `StoredAgreesWithApply`. |
| Options.StoredAgreesWithApply | main.c:138-149 | For an option that does not stop processing, the values `sscanf` stored are the switch's next record. A -g or -r argument that matched one number only is malformed, and it has already overwritten the first field of its pair while the second keeps its old value. |
| Options.ParseOptions | main.c:95-218 | The in-place loop returns exactly when `Run` is configured, leaving the record equal to `Run`'s configuration. It exits exactly when `Run` exits, with the same status. |
| Options.ProgramStatus | main.c:220-224 | The process status of `main` is 1 exactly when option processing fails, and 0 otherwise. |
| Decimal.ConvertInt | main.c:127 | A `%d` conversion that succeeds consumes at least one character of its input. |
| Decimal.FormatInt | main.c:290 | `%d` output is never empty. It starts with `-` exactly for a negative number, and is all digits otherwise. |
| Scanf.ScanInt | main.c:127 | `sscanf("%d")` returns EOF, 0 or 1, with one stored value per counted conversion. |
| Scanf.ScanIntPair | main.c:140 | `sscanf("%dx%d")` returns EOF, 0, 1 or 2, with one stored value per counted conversion. |
| Scanf.ScanEndOfInput | main.c:127-128 | Both formats return EOF exactly for an empty or all-white-space argument. `"%dx%d"` stores its first value exactly when `"%d"` does, and the same value. |
| Scanf.ScanIntFormat | main.c:161-163 | A number written by `printf("%d")`, with white space before it and any non-digit text after it, scans back to itself with return value 1. |
| Scanf.ScanIntPairFormat | main.c:175-177 | `<a>x<b>`, with white space allowed before either number, scans back to both numbers with return value 2. |
| Scanf.ScanIntPairWithoutSeparator | main.c:140-142 | A number not followed at once by `x` makes `"%dx%d"` return 1, so -g and -r reject it. |
| Decimal.ConvertIntShape | main.c:127 | A `%d` conversion fails on input exactly when only white space is left. A successful conversion consumes at least one character and stops before a digit. |
| Decimal.ConvertFormat | main.c:161 | `%d` reads back any integer `printf("%d")` wrote, after any white space and before any non-digit. |
| Decimal.FormatIntInjective | main.c:290 | Different integers are written as different decimal text. |
| Tiles.ColorMap.NumColors | main.c:241 | `numcolors` counts whole triples: `3 * numcolors` bytes fit in the palette and fewer than three bytes are left over. So every index below `numcolors` addresses three bytes inside the palette. |
| Tiles.PaletteIndex | main.c:279 | The palette index of a diverged pixel is always a valid colour index (below `numcolors`). |
| Tiles.PixelColor | main.c:272-283 | A pixel's colour is three bytes: black when it converged, and otherwise one of the palette's entries. |
| Tiles.Render | main.c:271-285 | A field of `N` pixels renders to a buffer of `3*N` bytes. |
| Tiles.RenderConcat | main.c:271-285 | Rendering works pixel by pixel: the buffer of two fields side by side is their two buffers side by side. |
| Tiles.RenderAt | main.c:273-282 | Bytes `3i..3i+2` of the buffer are the colour of pixel `i`. |
| Tiles.RenderLocal | main.c:273-282 | Changing pixel `i` changes bytes `3i..3i+2` to its new colour and no other byte. |
| Tiles.Converged | main.c:269-277 | `converged` never exceeds the number of pixels. |
| Tiles.Diverged | main.c:270-284 | `diverged` never exceeds the number of pixels. |
| Tiles.CountsPartition | main.c:269-285 | `converged + diverged` equals the pixel count. All pixels converged exactly when none diverged, and the other way round. |
| Tiles.CountsArePositions | main.c:272-284 | `converged` is the number of negative entries, and `diverged` is the number of the others. |
| Tiles.Interesting | main.c:289 | A saved tile has at least one converged and one diverged pixel, so it has at least two pixels. |
| Tiles.InterestingIff | main.c:289 | A tile is saved exactly when it has at least one converged and at least one diverged pixel. |
| Tiles.SetPixel | main.c:273-275 | Storing one pixel changes bytes `3i`, `3i+1` and `3i+2` of the buffer to the given bytes and no other byte. |
| Tiles.ColorTile | main.c:269-285 | The in-place pixel loop leaves the whole buffer equal to the rendered field and returns both counts. |
| Tiles.FileName | main.c:290 | The name starts with `image-`, ends with `.png` and has at least one character of number between them. |
| Tiles.FileNameReadsBack | main.c:290 | The text between `image-` and `.png` is the image number in decimal: `%d` reads it back exactly. |
| Tiles.FileNamesDistinct | main.c:290 | Different image numbers give different file names. |
| Tiles.Emissions | main.c:288-296 | At most one image is saved per tile. |
| Tiles.EmissionsSound | main.c:288-295 | Every saved image belongs to an interesting tile. It is numbered by that tile's position and named and filled accordingly. |
| Tiles.EmissionsComplete | main.c:288-295 | Every interesting tile is saved. |
| Tiles.EmissionsOrdered | main.c:288-296 | Saved images are numbered in strictly increasing order, because `imageno` advances for every tile. |
| Tiles.Available | main.c:264-268 | The fields processed are exactly the ones before the first allocation failure, in order. |
| Tiles.RenderTiles | main.c:261-297 | The tile loop saves exactly the images `Emissions` specifies for the fields processed. It stops early exactly when some field could not be allocated. |

## Left out

- `usage`, and all `fprintf` and `printf` output (main.c:32-69, 115-117 and the other messages): output only.
- `getopt` itself: the command line arrives as the sequence of options `getopt` returns.
  - An unknown option or a missing argument is the token `Unrecognized`. The switch ignores it because it has no `default` case.
  - Option permutation and `optind` are not modelled.
- The `%f` conversions of `-c` (main.c:109-112): floating-point parsing. The option carries the floats `sscanf` matched, and -c is malformed when there are fewer than four.
- `malloc` failure for `-s` (main.c:189-196): allocation is taken to succeed. The leak of an earlier path on a repeated `-s`, and `free` in the cleanup code, have no observable effect on the outcome.
- Decimal.ConvertInt: a `%d` value that does not fit in an `int` is undefined behaviour in C. The model keeps the exact integer.
- Option values are not range-checked. Grid size, resolution, iteration budget and density are described as positive, but `main.c` stores any integer that `%d` converts. The model follows `main.c`.
- Reading `colors.bin`: `fopen`, `ftell`, `fread` and a short read (main.c:231-249). The palette is the byte sequence `ColorMap.colors`.
- Tiles.PaletteIndex requires at least one colour, because `% numcolors` with an empty palette is a division by zero in C.
- Tiles.PaletteIndex computes `NUM * v / DEN` on integers, truncating as the `(size_t)` cast does for non-negative values. The C expression is floating point.
- The field type. `create_mandelbrot` returns `int *` (mandelbrot.h:5), and main.c:264 casts it to `float *`, reading the integers' bits as floats. The model treats field values as the integers that mandelbrot.h declares. The bit reinterpretation is floating point and is not modelled.
- OpenCV: `cvCreateImage`, `cvResize` to 8192×4608, `cvSaveImage` and row padding (`widthStep`). The saved image is the RGB buffer before scaling, and the buffer is assumed tightly packed at 3 bytes per pixel.
- The floating-point stepping of tile origins (main.c:258-263). Tiles are a sequence of fields in traversal order.
- `create_mandelbrot` and mandelbrot.h: only a declaration, whose CUDA implementation is not part of this model. colors.py (palette generation in floating point) is not part of this model either.
