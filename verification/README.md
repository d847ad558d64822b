# CarpetColorProject colour analysis, modelled in Dafny

CarpetColorProject names the colours in carpet photographs. Each image is reduced to
two colours:

- the **average colour**, which is the per-channel arithmetic mean truncated to an integer;
- the **dominant colour**, which is the centroid of the largest k-means cluster.

Each colour is then named after the nearest colour in a palette. There are two namers:

- `ColorNamer.name_color` uses a palette read from a text file of `<name> <R> <G> <B>` lines. On a distance tie the first entry wins.
- `closest_colour` / `get_colour_name` in the older `avg_color.py` script use the CSS3 colour table. On a distance tie the last entry wins.

This project models that logic as pure functions over integer colours and sequences, and proves the following:

- Naming picks a nearest entry, with each routine's own tie-break.
- Palette lines round-trip through rendering and parsing.
- The mean colour stays within the channel range.
- The dominant-cluster pick selects the first largest cluster whenever every cluster is non-empty.

Modules, one per file:

- `Outcome` (`outcome.dfy`): the `Option` and `Result` wrappers and the error kinds.
  - `CollectFrom` maps a fallible step over a sequence and stops at the first failure.
- `Colors` (`colors.dfy`): pixels as OpenCV stores them (blue, green, red), `(R, G, B)` triples, palette `Color`s and the squared Euclidean distance.
- `Extremes` (`extremes.dfy`): first-minimum, last-minimum and first-maximum positions, i.e. numpy's `argmin` and `argmax`.
- `Text` (`text.dfy`): the parts of Python's `str` that the loader uses, as CPython 3.6 through 3.10.6 behaves. Underscores in `int()` literals arrived in 3.6. The 4300-digit limit on `int()` of later releases is not modelled (see "Left out").
  - `strip()` and `split(' ')`.
  - `int()` on a token: surrounding whitespace (every `str.isspace()` character except the separators U+001C–U+001F, which `int()` does not skip), an optional sign, and decimal digits with single underscores between them.
- `PaletteFile` (`palette_file.dfy`): `read_target_color_file` over a sequence of lines, and the inverse rendering of a palette.
- `ColorNamer` (`color_namer.dfy`):
  - `name_color`;
  - `avg_color`;
  - the tail of `dominant_color`: `itemfreq` of the labels, `argmax` over the counts, centroid lookup and BGR→RGB swap.
- `AvgColorScript` (`avg_color_script.dfy`):
  - `closest_colour` and `get_colour_name`;
  - the script's per-image average and dominant steps.

Modelling choices:

- Distances are exact integer squared Euclidean distances. `sqrt` is monotone, so in exact arithmetic the nearest entry is the same as with `distance.euclidean`. The float64 `euclidean` agrees with it only while squared distances stay well below 2^52, e.g. for channels in 0..255 (see "Left out").
- An image is the flat sequence of its pixels, which is what `reshape((-1, 3))` produces. In exact arithmetic the mean of the row means equals the mean over all pixels.
- `cv2.kmeans` is not modelled. Its `labels` and integer `centroids` (already in 0..255) are inputs.
- The webcolors table is a parameter sequence of `(rgb, name)` entries. `webcolors.rgb_to_name` is a partial function parameter `lookup`.
- Failures the Python code raises are `Err` results:
  - `EmptyPalette`: `argmin` of an empty list, or `min()` of no keys.
  - `EmptyImage`: a mean over zero pixels, or `argmax` over no labels.
  - `BadChannel(line, token)`: `int()` rejecting a token.
- Dafny functions are deterministic, so naming the same colour against the same palette always gives the same name.

The loader does not skip blank lines and does not check the token count (color_namer.py:52-58):

- A blank line becomes a `Color` with name `""` and no channels (`PaletteFile.BlankLine`).
- Any number of channel tokens is accepted.
- Several consecutive spaces produce empty tokens, which `int()` rejects.

## Model

| member | source | states |
|---|---|---|
| Outcome.CollectFrom | color_namer.py:54-58 | Applying a fallible step to every element succeeds iff every step succeeds. On success it gives one result per element, in order. Otherwise it reports the error of a failing element. |
| Colors.SqDistZero | color_namer.py:28 | The squared distance between two colours is zero exactly when they are equal. |
| Extremes.ArgminFirst | color_namer.py:30 | The scan returns a position holding the minimum with no strictly earlier minimum (numpy `argmin`). |
| Extremes.ArgmaxFirst | color_namer.py:90 | The scan returns a position holding the maximum with no earlier maximum (numpy `argmax`). |
| Extremes.ArgminLast | avg_color.py:34-35 | The scan returns the minimum position with no later minimum: the entry a dict overwrite keeps. |
| Extremes.Min | avg_color.py:35 | `min()` returns an element that is ≤ every element. |
| Extremes.FirstMinUnique | color_namer.py:30 | At most one position is the first minimum, so the `argmin` tie-break is fully determined. |
| Extremes.LastMinUnique | avg_color.py:34-35 | At most one position is the last minimum. |
| Extremes.FirstMaxUnique | color_namer.py:90 | At most one position is the first maximum. |
| Text.StripLeft | color_namer.py:52 | The result is a suffix of the line. Everything dropped is whitespace of the chosen kind (`strip()`'s or `int()`'s), and the result does not start with such whitespace. |
| Text.StripRight | color_namer.py:52 | The result is a prefix of the line. Everything dropped is whitespace of the chosen kind, and the result does not end with such whitespace. |
| Text.Strip | color_namer.py:52 | The stripped line is no longer than the line, and when non-empty it neither starts nor ends with whitespace of the chosen kind. `StripInfix` and `StripTrailing` show it is the line's middle with only that whitespace removed. |
| Text.LeadingBlanks | color_namer.py:52 | The number of characters `strip()` drops at the front: all of them whitespace, and the next character is not. |
| Text.StripInfix | color_namer.py:52 | The stripped line is the infix of the line that starts right after the leading whitespace. |
| Text.StripTrailing | color_namer.py:52 | Every character after the kept infix is whitespace of the chosen kind. |
| Text.StripUnchanged | color_namer.py:52 | `strip()` leaves a line with no whitespace at either end unchanged. |
| Text.StripAllSpace | color_namer.py:52 | `strip()` of an all-whitespace line is empty. |
| Text.FirstSpace | color_namer.py:55 | The position returned holds a space and no earlier position does. |
| Text.FirstSpaceAt | color_namer.py:55 | Any space with no space before it is the one `FirstSpace` finds. |
| Text.Split | color_namer.py:55 | `split(' ')` yields at least one part. No part contains a space, and joining the parts with single spaces restores the line. |
| Text.JoinStart | color_namer.py:39-44 | A line joined with single spaces starts with its first part. |
| Text.JoinEnds | color_namer.py:52 | A single-space join of non-empty parts starts with the first part's first character and ends with the last part's last character. |
| Text.JoinAvoids | color_namer.py:39-44 | A character other than the space that no part contains is not in the joined line. |
| Text.SplitJoin | color_namer.py:55 | Splitting the single-space join of space-free parts returns exactly those parts. |
| Text.DigitsRoundTrip | color_namer.py:57 | The value of the decimal digits of `n` is `n`. |
| Text.IntToString | color_namer.py:39-44 | A channel written in decimal is non-empty and contains no space and no line break. It has no whitespace at either end. |
| Text.DigitGroupsChars | color_namer.py:57 | A digit string accepted by `int()` consists only of digits and underscores. |
| Text.DropUnderscores | color_namer.py:57 | Removing underscores never lengthens the text and leaves no underscore. From digits-and-underscores it leaves only digits. A pure digit string is unchanged. |
| Text.DropUnderscoresConcat | color_namer.py:57 | Removing underscores from a concatenation is the concatenation of the two removals. |
| Text.DropOneUnderscore | color_namer.py:57 | Removing the single underscore between two digit strings gives their concatenation. |
| Text.ParseMagnitude | color_namer.py:57 | An unsigned magnitude parses exactly when it is digit groups joined by single underscores. Its value is the decimal value of its digits with the underscores removed. |
| Text.ParseMagnitudeUnderscore | color_namer.py:57 | `int('12_34')` reads as `int('1234')`: one underscore between non-empty digit strings does not change the value. |
| Text.ParseInt | color_namer.py:57 | `int()` accepts a token iff, after dropping the whitespace `int()` skips, it is digit groups with an optional leading '+' or '-'. An empty or all-whitespace token fails. `ParseIntStrip`, `ParseIntUnsigned` and `ParseIntSigned` give the value. |
| Text.ParseIntStrip | color_namer.py:57 | A token padded with whitespace that `int()` skips reads as its stripped form, e.g. `int("1\t") == int("1")`. |
| Text.ParseIntUnsigned | color_namer.py:57 | An unsigned literal reads as the value of its magnitude. |
| Text.ParseIntSigned | color_namer.py:57 | A '+' keeps the magnitude's value and a '-' negates it. |
| Text.ParseIntRoundTrip | color_namer.py:57 | `int()` of the decimal rendering of any integer, negative ones included, gives that integer back (with no limit on the number of digits). |
| PaletteFile.Tokens | color_namer.py:52-55 | A stripped and split line always has a first token, so `split_str_list[0]` cannot fail. |
| PaletteFile.ParseChannels | color_namer.py:57 | The channels parse iff every token parses under `int()`. The values are those of the tokens, in order. A failure names the first token `int()` rejects. |
| PaletteFile.ParseLine | color_namer.py:55-58 | The first token is the name and every later token is a channel, in order. The line fails iff some channel token is not an integer, and the error names that line and the first such token. |
| PaletteFile.ReadTargetColorFile | color_namer.py:50-60 | Exactly one `Color` per line, in line order, each the parse of its line. The file fails iff some line fails, with the error of the first failing line. |
| PaletteFile.Render | color_namer.py:39-44 | The rendered line starts with the colour's name, and for a renderable colour it holds no line break. |
| PaletteFile.ChannelsRoundTrip | color_namer.py:57 | Parsing the rendered channels gives back the channels. |
| PaletteFile.TokensOfRender | color_namer.py:52-55 | A rendered line strips to itself and splits into the name followed by the channel texts. |
| PaletteFile.LineRoundTrip | color_namer.py:37-58 | Parsing the rendered line `<name> <R> <G> <B>` gives back the same `Color`, for any integer channels (of any number of digits) and any name that is non-empty, has no space or line break inside and no whitespace at either end. |
| PaletteFile.FileRoundTrip | color_namer.py:50-60 | Reading back the sequence of rendered lines of a palette of renderable colours gives the same palette. |
| PaletteFile.BlankLine | color_namer.py:52-58 | An empty or all-whitespace line is not skipped. It yields a `Color` named `""` with no channels. |
| ColorNamer.NameColor | color_namer.py:27-31 | It fails iff the palette is empty, with `EmptyPalette`. Otherwise it names a nearest entry with no strictly nearer and no equally near earlier entry. |
| ColorNamer.FirstNearestUnique | color_namer.py:30 | Only one entry is the first nearest, so `name_color`'s result is determined by the tie-break. |
| ColorNamer.NameColorIsFirstNearest | color_namer.py:30-31 | `name_color` returns exactly the name of the first nearest entry. |
| ColorNamer.ExactMatchWins | color_namer.py:27-31 | An entry equal to the input is named when no earlier entry equals the input. |
| ColorNamer.RedBlueTie | color_namer.py:30-31 | (127, 0, 127) is equidistant from red and blue, and `name_color` names the earlier entry, "red". |
| ColorNamer.ChannelSum | color_namer.py:106-107 | A channel sum over n pixels is at most 255·n. |
| ColorNamer.ChannelSumBounds | color_namer.py:106-107 | If every pixel's channel lies in [lo, hi], the channel sum lies between lo·n and hi·n. |
| ColorNamer.MeanWithin | color_namer.py:106-110 | A truncated channel mean lies in the range of that channel's values. |
| ColorNamer.AvgColor | color_namer.py:106-112 | It fails iff the image has no pixels. Otherwise each of R, G, B is the truncated mean of that channel read from BGR positions 2, 1, 0, and lies in [0, 255]. |
| ColorNamer.AvgColorWithin | color_namer.py:106-112 | If every pixel's channel lies in [lo, hi], so does the average's. |
| ColorNamer.ConstantImageAverage | color_namer.py:106-112 | The average of a constant image is its colour. |
| ColorNamer.RedBlueAverage | color_namer.py:106-112 | Two red and two blue pixels average to (127, 0, 127), truncated. |
| ColorNamer.Count | color_namer.py:90 | A label's count is at most the number of labels, and positive exactly when the label occurs. |
| ColorNamer.FreqRowsFrom | color_namer.py:90 | The rows have strictly increasing items in range, each with its positive number of occurrences. |
| ColorNamer.FreqRowsCover | color_namer.py:90 | Every label in range that occurs has a row. |
| ColorNamer.ItemFreq | color_namer.py:90 | `itemfreq(labels)` lists each distinct label once, sorted ascending, with its positive count. Every label has a row and there are at most k rows. |
| ColorNamer.DominantColor | color_namer.py:88-97 | It fails iff there are no labels. Otherwise it is the centroid indexed by the first row of maximal count, reordered to (R, G, B). |
| ColorNamer.FreqRowsAllPresent | color_namer.py:90 | When every label 0..k-1 occurs, the rows are exactly `(c, count c)` for c in order. |
| ColorNamer.CountsAreClusterSizes | color_namer.py:90 | When no cluster is empty, the count column equals the cluster sizes, so row index and cluster index coincide. |
| ColorNamer.DominantIsLargestCluster | color_namer.py:88-97 | When no cluster is empty, the dominant colour is the centroid of the first largest cluster, reordered to (R, G, B). |
| ColorNamer.EmptyClusterShiftsIndex | color_namer.py:90-91 | With cluster 1 empty, labels [0, 2, 2] have cluster 2 largest, yet the row index 1 selects centroid 1. |
| ColorNamer.LargestClusterExample | color_namer.py:90 | Of the clusters of labels [0, 2, 2], cluster 2 is the first largest. |
| ColorNamer.LabelCountsExample | color_namer.py:90 | Labels [0, 2, 2] have counts 1, 0 and 2 for clusters 0, 1 and 2. |
| ColorNamer.ItemFreqExample | color_namer.py:90 | `itemfreq([0, 2, 2])` is `[[0, 1], [2, 2]]`. |
| AvgColorScript.MinColours | avg_color.py:28-34 | After the loop, the dict's keys are exactly the entries' squared distances. |
| AvgColorScript.MinColoursLastWriter | avg_color.py:28-34 | An entry with no later entry at the same distance is the name stored under that distance. |
| AvgColorScript.ClosestColour | avg_color.py:27-35 | It fails iff the table is empty. Otherwise it names a nearest entry with no equally near later entry. |
| AvgColorScript.LastNearestUnique | avg_color.py:34-35 | Only one entry is the last nearest. |
| AvgColorScript.ClosestColourIsLastNearest | avg_color.py:34-35 | `closest_colour` returns exactly the name of the last nearest entry. |
| AvgColorScript.TieBreaksDiffer | avg_color.py:34-35 | For (127, 0, 127) against red then blue, `name_color` says "red" but `closest_colour` says "blue". |
| AvgColorScript.GetColourName | avg_color.py:37-43 | An exact lookup hit gives `(n, n)`. A miss gives `(None, closest_colour(c))`, failing only on an empty table. |
| AvgColorScript.GetColourNameIsNearest | avg_color.py:37-43 | For a colour with channels in 0..255 (all the script asks about), when the lookup names only table entries for such colours, the name returned is always that of a nearest entry. |
| AvgColorScript.AverageStep | avg_color.py:90-96 | It fails on an empty image. Otherwise it fails, with `EmptyPalette`, iff the mean has no exact name and the table is empty; else it gives the truncated per-channel mean as (R, G, B) and the exact or last-nearest name of it. |
| AvgColorScript.DominantStep | avg_color.py:118-128 | It fails when there are no labels. Otherwise it fails, with `EmptyPalette`, iff the colour has no exact name and the table is empty; else it gives the centroid at the first argmax of the label counts as (R, G, B), with the exact or last-nearest name of it. |

## Left out

- `label_picture_color.py` is not part of this model. It is command-line glue: directory globbing, argument parsing, image reading and CSV output around the modelled functions.
- The I/O of `avg_color.py` is left out: argument checks, globbing, printing and CSV writing.
- Opening and reading the palette file is left out. The loader takes the file's lines as a sequence.
- `cv2.imread` and `cv2.kmeans` are foreign calls and are not modelled. Their labels and centroids are inputs. The `criteria`, `attempts` and initialisation flags only steer `kmeans`.
- Floating point is left out: `np.float32` and `np.average`'s float mean, and the `np.uint8` cast of float centroids. The mean is exact integer division, truncated. Centroids are taken as integers in 0..255.
- The webcolors CSS3 table and the internals of `hex_to_rgb` / `rgb_to_name` are left out. They are parameters.
- The unused `average_color` list and the `quantized` image in `avg_color.py` are computed but never used, so they are not modelled.
- ColorNamer.NameColor: uses exact integer squared distances. scipy's `distance.euclidean` computes in float64, so distinct squared distances above about 2^53 can round to the same value and `argmin` then takes the first. For example, for (0, 0, 0) against `a 1000000000 0 1` then `b 1000000000 0 0`, the Python code names "a" but the model names "b". The two agree while squared distances stay well below 2^52, e.g. for channels in 0..255.
- ColorNamer.NameColor: requires every palette entry to have exactly three channels. scipy's broadcasting of shorter entries, and its errors on other lengths, are not modelled.
- Text.ParseInt: accepts only ASCII decimal digits. Python's `int()` also accepts other Unicode decimal digits.
- Text.ParseInt: accepts a decimal literal of any length. CPython 3.11, and 3.7.14, 3.8.14, 3.9.14 and 3.10.7, raise `ValueError` for more than 4300 digits (`sys.int_info.default_max_str_digits`). On those versions a palette line such as `red <4301 ones> 0 0` fails where the model succeeds. There, `ParseIntRoundTrip`, `ChannelsRoundTrip`, `LineRoundTrip` and `FileRoundTrip` hold only for channels of at most 4300 digits.
- Text.ParseInt: follows Python 3.6 and later in accepting single underscores between digits. Python 2.7 and 3.5 reject `int("1_0")`.
- ColorNamer.DominantColor: states the row-index behaviour of the code. `DominantIsLargestCluster` proves it selects the largest cluster only when no cluster is empty, which OpenCV's `kmeans` maintains.
