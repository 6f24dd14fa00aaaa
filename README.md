# No Cloth Sims, modelled in Dafny

"No Cloth Sims" and "No Cloth Sims Lite" are two Blender add-ons. Each one
puts a pre-baked cloth animation, stored as an Alembic sequence cache, onto
a character instead of running a cloth simulation, and makes that cache
loop. This project models the logic under their panels:

- **Which library applies.** The full add-on looks its rig table up by
  armature name (`get_supported_data`). The lite add-on looks its mesh
  table up fuzzily or exactly (`check_supported_fuzzy`,
  `check_supported_exact`). It also searches the selected objects and their
  recursive children for the first supported mesh (`find_first_object`).
- **Decoding a clip.** The lite add-on reads a clip's display name, start
  frame and end frame from its Alembic object path (`parse_path`).
- **Installing the loop.** `set_driver` writes the loop expression on the
  cache file's last driver, or on a new `frame` driver when it has none, so
  it never adds a second. The expression is either `(frame) % n` or
  `min(frame, (frame - s) % n + s)`.
- **The list handlers.** The full add-on fills its list from the cache's
  object paths and selects `/rest` (`update_anims`). Both add-ons have
  handlers that install the driver when an item is selected or its speed
  or offset is edited.

Modules:

- **PyText**: the Python string and integer operations used, for ASCII
  text. These are `rfind`, `split`, `in`, a one-character `replace`,
  `strip`, `title`, `int()` and `f"{n}"`.
- **LoopExpression**: the two expression shapes, their text, and their
  value under Python's floored `%`.
- **Host**: the cache file and the sequence-cache modifier, as classes with
  mutable fields. Also scene objects with their children.
- **Catalog**: the first-match searches over a `supported` table.
- **LoopDriver**: the driver-installing step both add-ons share.
- **NoClothSims** and **NoClothSimsLite**: one module per add-on.

The model follows the code as written. Behaviour worth knowing:

- `parse_path` cuts a `_<suffix>` from the name whether or not it reads as
  an integer. Such a suffix counts as frame 0.
- Frames can be negative (`x_-5` gives end frame -5).
- The decoded triple is `(name, start_frame, end_frame)`, with no category field.
- The lite `set_driver` skips only `end - start == 0`. A path whose end frame
  is one less than its start gets a period of 0, and the expression then
  raises `ZeroDivisionError` at every frame
  (`NoClothSimsLite.EndBeforeStartZeroPeriod`).
- The full add-on's `set_anim` writes the item's display name, not its
  path, into the modifier's object path. For `/rest` that is `/Rest`
  (`NoClothSims.SelectedRestIsNotAPath`).
- A modifier's cache file may be `None`. The handlers then raise
  `AttributeError`: the full `set_anim` after writing the object path, the
  lite `set_anim` before writing anything, and the lite `update_driver`
  only when the path decodes to a non-zero duration.
- The lite `load_cache` calls `os.path.samefile`, but the lite file never
  imports `os`, so it raises `NameError` and the lite `set_anim_lib` never
  assigns a cache file.

## Model

| member | source | states |
|---|---|---|
| PyText.RFind | no_cloth_sims_lite.py:111 | `rfind` gives -1 or an index inside the text that holds the character |
| PyText.RFindLast | no_cloth_sims_lite.py:111 | no occurrence of the character follows the index `rfind` returns |
| PyText.RFindUnique | no_cloth_sims_lite.py:111 | any index with `rfind`'s three properties is `rfind`'s result |
| PyText.RFindSuffixFree | no_cloth_sims_lite.py:111-114 | the text after the last `_` holds no `_` |
| PyText.Contains | no_cloth_sims_lite.py:29 | Python's `needle in hay` on two strings; what it means is stated by `PyText.ContainsIff` |
| PyText.ContainsIff | no_cloth_sims_lite.py:29 | `needle in hay` holds exactly when the needle occurs at some position of the hay |
| PyText.Split | no_cloth_sims_lite.py:105 | `split` on one separator gives at least one piece; `PyText.JoinSplit` and `PyText.SplitPiecesFree` fix the pieces |
| PyText.JoinSplit | no_cloth_sims_lite.py:105 | joining the pieces of `split("/")` with `/` gives back the text |
| PyText.SplitPiecesFree | no_cloth_sims_lite.py:105 | no piece of `split("/")` holds `/` |
| PyText.SplitLast | no_cloth_sims_lite.py:105-108 | `parts[-1]` is the text after the last separator |
| PyText.SplitLastAfterLead | no_cloth_sims_lite.py:102-108 | dropping one leading `/` before splitting leaves `parts[-1]` unchanged |
| PyText.PyIndex | no_cloth_sims.py:156 | a list index is valid exactly for -n <= i < n; a negative one counts from the end; any other raises `IndexError` |
| PyText.ReplaceChar | no_cloth_sims_lite.py:128 | `replace` keeps the length, turns every `from` into `to` and keeps every other character |
| PyText.ReplaceAbsent | no_cloth_sims_lite.py:128 | `replace` of a character the text lacks changes nothing |
| PyText.ReplaceRemoves | no_cloth_sims_lite.py:128 | after `replace("_", " ")` no `_` is left |
| PyText.Trim | no_cloth_sims_lite.py:128 | the trimmed text is no longer than the input, and it is empty or starts and ends with a non-space |
| PyText.TrimMiddle | no_cloth_sims_lite.py:128 | `strip` keeps a slice of the input and cuts off only whitespace on each side |
| PyText.Strip | no_cloth_sims_lite.py:128 | `strip()` is the two-sided trim of `str.isspace()` characters; stated by `PyText.Trim` and `PyText.TrimMiddle` |
| PyText.StripKeepsAbsent | no_cloth_sims_lite.py:128 | `strip` never brings in a character the text lacked |
| PyText.ToUpper | no_cloth_sims_lite.py:128 | upper-casing gives the same letter in upper case and leaves every non-letter unchanged |
| PyText.ToLower | no_cloth_sims_lite.py:128 | lower-casing gives the same letter in lower case and leaves every non-letter unchanged |
| PyText.Title | no_cloth_sims_lite.py:128 | `title` keeps the length and keeps every character up to case: the same letter in some case, or the same non-letter |
| PyText.TitleKeepsAbsent | no_cloth_sims_lite.py:128 | `title` never brings in a non-letter the text lacked |
| PyText.TitleKeepsEnds | no_cloth_sims_lite.py:128 | `title` keeps whether the first and last characters are whitespace |
| PyText.TitleIsTitled | no_cloth_sims_lite.py:128 | `title`'s result starts every word upper case and continues it lower case |
| PyText.TitleFixedIff | no_cloth_sims_lite.py:128 | `title` leaves a text unchanged exactly when the text is already title-cased |
| PyText.TitleUnique | no_cloth_sims_lite.py:128 | a text that keeps every character of s up to case and is title-cased is `s.title()` |
| PyText.TitleIdempotent | no_cloth_sims.py:95 | `title` applied twice is `title` applied once |
| PyText.ParseInt | no_cloth_sims_lite.py:113-116 | `int()` of text without `_`: surrounding C whitespace, an optional sign and ASCII digits, else `ValueError`; its round trip is `PyText.IntRoundTrip` |
| PyText.IntToString | no_cloth_sims_lite.py:82 | `f"{n}"` starts with `-` exactly when n is negative, then has decimal digits with no leading zero; the text of 0 is exactly `0` |
| PyText.NatToString | no_cloth_sims_lite.py:82 | the decimal digits of a natural number are nonempty, start with `0` only for 0, and are exactly `0` for 0 |
| PyText.NatToStringValue | no_cloth_sims_lite.py:82 | the decimal digits written for n read back as n |
| PyText.IntToStringNoUnderscore | no_cloth_sims_lite.py:82 | the text of an integer holds neither `_` nor `/` |
| PyText.IntToStringTrimmed | no_cloth_sims_lite.py:114 | the text of an integer has no whitespace for `int()` to skip |
| PyText.ParseSignedIntText | no_cloth_sims_lite.py:114 | the sign and digits of an integer's text read back as that integer |
| PyText.IntRoundTrip | no_cloth_sims_lite.py:114 | `int(f"{n}") == n` for every integer n, without the digit limit of CPython (see Left out) |
| LoopExpression.Synthesize | no_cloth_sims.py:82-87 | the plain wrap exactly when the start frame is 0, else hold-then-wrap; the period and start are the ones passed |
| LoopExpression.FrameTextBare | no_cloth_sims.py:79-81 | the frame term is bare `frame` exactly when speed is 1 and offset is 0 |
| LoopExpression.FrameText | no_cloth_sims.py:79-81 | the frame term `frame[ * speed][ + offset]`; stated by `LoopExpression.FrameTextBare` and `LoopExpression.FrameTextMarks` |
| LoopExpression.FrameTextMarks | no_cloth_sims.py:79-81 | when the formatted numbers hold no `*` or `+`, the term has a `*` exactly when speed is not 1 and a `+` exactly when offset is not 0 |
| LoopExpression.Render | no_cloth_sims.py:84-87 | the expression text `(f) % n` or `min(f, (f - s) % n + s)`; its installed form is stated by `LoopDriver.SetLoopDriver` |
| LoopExpression.Eval | no_cloth_sims.py:84-87 | the value the host computes from the expression at an integer frame; stated by `LoopExpression.WrapLoops`, `LoopExpression.HoldBeforeStart`, `LoopExpression.LoopAfterStart` and `LoopExpression.ZeroPeriodRaises` |
| LoopExpression.PyMod | no_cloth_sims.py:84 | Python's `%` raises for 0 and otherwise has the divisor's sign and stays below it in size |
| LoopExpression.PyModCongruent | no_cloth_sims.py:84 | Python's `%` result differs from the dividend by a multiple of the divisor |
| LoopExpression.WrapLoops | no_cloth_sims.py:82-84 | `(f) % n` with n > 0 stays in [0, n), repeats every n frames and plays 0 .. n-1 unchanged |
| LoopExpression.HoldBeforeStart | no_cloth_sims.py:85-87 | the hold-then-wrap expression passes frames up to its start through unchanged |
| LoopExpression.LoopAfterStart | no_cloth_sims.py:85-87 | from its start on, the expression stays in [s, s+n), plays s .. s+n-1 unchanged and repeats every n frames |
| LoopExpression.ZeroPeriodRaises | no_cloth_sims_lite.py:82-85 | an expression with period 0 raises `ZeroDivisionError` at every frame |
| Host.Installed | no_cloth_sims.py:69-75 | the last driver is reused and keeps its property, or a `frame` driver is added when there is none; only the last driver gets the new expression |
| Host.ChildrenRecursive | no_cloth_sims_lite.py:44 | `children_recursive` as each child followed by its own descendants (see Left out); `Host.DescendantsOf` extends it to a list of objects, each followed by its descendants |
| Host.InstalledTwice | no_cloth_sims.py:69-75 | installing twice never adds a second driver; the later expression replaces the earlier one |
| LoopDriver.SetLoopDriver | no_cloth_sims.py:68-87 | the frame override is on and the driver list is the old one with the loop expression for the start frame and period installed; nothing else changes; with no cache `AttributeError` is raised |
| Catalog.FuzzySearch | no_cloth_sims_lite.py:27-30 | `None` exactly when every entry misses; otherwise the first entry that holds a string contained in the name, or `TypeError` at the first entry without a string under the key |
| Catalog.FuzzyFirstMatch | no_cloth_sims_lite.py:27-30 | an entry that matches, after entries that all miss, is the one found |
| Catalog.ExactSearch | no_cloth_sims_lite.py:32-35 | never raises; `None` exactly when no entry equals the name under the key; otherwise the first entry that does |
| NoClothSims.GetSupportedData | no_cloth_sims.py:56-59 | any category other than `armature` raises `TypeError`; a name containing `gary` finds Gary first, else one containing `carol` finds Carol, else `None` |
| NoClothSims.CallersLoopRange | no_cloth_sims.py:112 | with the callers' start 0 and period 64, the expression is `(f) % 64`, stays in [0, 63], repeats every 64 frames and plays 0 .. 63 unchanged |
| NoClothSims.DefaultExpression | no_cloth_sims.py:137 | with speed 1 and offset 0 the installed text is exactly `(frame) % 64` |
| NoClothSims.ItemName | no_cloth_sims.py:95 | `path.replace("_", " ").title()` of the whole path; stated by `NoClothSims.RestItemName` and `NoClothSims.SelectedRestIsNotAPath` |
| NoClothSims.Items | no_cloth_sims.py:93-96 | one item per path, in order, named by the path's title-cased text |
| NoClothSims.RestIndex | no_cloth_sims.py:97-100 | the index of the last `/rest` path, or 0 when there is none |
| NoClothSims.Poll | no_cloth_sims.py:91-100 | the list and selection after `update_anims`; `NoClothSims.UpdateAnims` is proved equal to it |
| NoClothSims.PollIdempotent | no_cloth_sims.py:91 | a second poll of the same cache changes nothing, so the list fills once |
| NoClothSims.PollSelectionInRange | no_cloth_sims.py:91-100 | after a poll the selection indexes the list, unless the list is empty |
| NoClothSims.RestItemName | no_cloth_sims.py:95 | the item name shown for `/rest` is `/Rest` |
| NoClothSims.UpdateAnims | no_cloth_sims.py:89-100 | an empty list becomes one item per object path in order, with the last `/rest` selected (0 when absent); a filled list is left as it is |
| NoClothSims.UpdateDriver | no_cloth_sims.py:107-112 | the modifier's cache gets the override and the 64-frame loop with the item's speed and offset; without a cache file it raises `AttributeError` |
| NoClothSims.SetAnimLib | no_cloth_sims.py:129-144 | the loaded cache gets `(frame) % 64`, the modifier points at its `/rest` and the list is emptied |
| NoClothSims.SetAnim | no_cloth_sims.py:149-160 | an invalid index raises `IndexError` and changes nothing; otherwise the item's display name becomes the object path, and then its speed and offset drive the 64-frame loop, or `AttributeError` is raised when there is no cache file |
| NoClothSims.SelectedRestIsNotAPath | no_cloth_sims.py:156-157 | for a `/rest` path, the name `set_anim` writes is `/Rest`, which differs from the path |
| NoClothSimsLite.CheckSupportedFuzzy | no_cloth_sims_lite.py:27-30 | any key other than `mesh` raises `TypeError`; with `mesh`, a name containing `tie` finds the tie entry, else `None` |
| NoClothSimsLite.CheckSupportedExact | no_cloth_sims_lite.py:32-35 | only the exact name `tie` under the key `mesh` finds the tie entry; nothing raises |
| NoClothSimsLite.SearchMeshes | no_cloth_sims_lite.py:44-49 | no match exactly when every object is a non-mesh or an unsupported mesh; otherwise the first supported mesh, with its entry |
| NoClothSimsLite.FindFirstObject | no_cloth_sims_lite.py:38-50 | `find_first_object` itself; stated by `NoClothSimsLite.FindFirstObjectInVisitOrder` and `NoClothSimsLite.FindFirstObjectFindsTie` |
| NoClothSimsLite.SearchMeshesAppend | no_cloth_sims_lite.py:44-49 | searching a concatenation searches the first part, then the second |
| NoClothSimsLite.FindFirstObjectInVisitOrder | no_cloth_sims_lite.py:38-50 | `find_first_object` is the first-supported-mesh search over `Host.DescendantsOf(selected)`: each selected object followed by its recursive children |
| NoClothSimsLite.FindFirstObjectFindsTie | no_cloth_sims_lite.py:38-50 | with this table the search never raises, and what it finds is a mesh whose name contains `tie`, with the tie entry |
| NoClothSimsLite.ParsePath | no_cloth_sims_lite.py:87-129 | `parse_path` itself; stated by `NoClothSimsLite.ParsePathLeafOnly`, `NoClothSimsLite.ParseClipPath`, `NoClothSimsLite.ParsePathNameWellFormed` and the examples |
| NoClothSimsLite.DecodeLeaf | no_cloth_sims_lite.py:110-128 | the suffix-cutting and naming of the last segment; stated by `NoClothSimsLite.DecodeNoSuffix`, `NoClothSimsLite.DecodeOneSuffix` and `NoClothSimsLite.DecodeTwoSuffixes` |
| NoClothSimsLite.IntOrZero | no_cloth_sims_lite.py:113-116 | `int()` with a bare `except` that keeps 0 |
| NoClothSimsLite.DisplayName | no_cloth_sims_lite.py:128 | `replace("_", " ").strip().title()`; stated by `NoClothSimsLite.DisplayNameWellFormed` and `NoClothSimsLite.DisplayNameOfPlain` |
| NoClothSimsLite.LastSegment | no_cloth_sims_lite.py:101-108 | `parts[-1]` after one leading `/` is dropped is the text after the last `/` |
| NoClothSimsLite.ParsePathLeafOnly | no_cloth_sims_lite.py:98-108 | the decoded triple depends only on the text after the last `/`; the empty path gives `("", 0, 0)` |
| NoClothSimsLite.DecodeNoSuffix | no_cloth_sims_lite.py:110-128 | a segment without `_` is all name, with both frames 0 |
| NoClothSimsLite.DecodeOneSuffix | no_cloth_sims_lite.py:110-117 | with one `_`, the text after it is always cut from the name and is the end frame if it reads as an integer, else 0 |
| NoClothSimsLite.DecodeEndOnly | no_cloth_sims_lite.py:110-117 | `<base>_<end>` with an integer end gives start 0 and that end |
| NoClothSimsLite.DecodeTwoSuffixes | no_cloth_sims_lite.py:110-125 | the texts after the last two `_` are cut from the name and read as start and end frames, each 0 when not an integer |
| NoClothSimsLite.DecodesFinalSegment | no_cloth_sims_lite.py:101-108 | a `/`-free segment at the end of a path is the segment decoded, whatever precedes it |
| NoClothSimsLite.DecodeClipLeaf | no_cloth_sims_lite.py:110-128 | a segment `<base>_<start>_<end>` decodes to the display form of base and exactly those frames |
| NoClothSimsLite.ParsePlainPath | no_cloth_sims_lite.py:87-129 | a path whose last segment has no `_` decodes to that segment's display form with frames 0, 0 |
| NoClothSimsLite.ParseEndPath | no_cloth_sims_lite.py:87-129 | `<prefix>/<base>_<end>` decodes to start 0 and exactly that end |
| NoClothSimsLite.ParseClipPath | no_cloth_sims_lite.py:87-129 | round trip: the path written for a clip decodes to its display name and exactly the frames written |
| NoClothSimsLite.DisplayNameNoUnderscore | no_cloth_sims_lite.py:128 | the display name holds no `_` |
| NoClothSimsLite.DisplayNameTrimmed | no_cloth_sims_lite.py:128 | the display name neither starts nor ends with whitespace |
| NoClothSimsLite.DisplayNameWellFormed | no_cloth_sims_lite.py:128 | the display name has no `_`, no surrounding whitespace, and is title-cased |
| NoClothSimsLite.DecodeLeafNameWellFormed | no_cloth_sims_lite.py:110-128 | whatever segment is decoded, its name is well formed in that sense |
| NoClothSimsLite.ParsePathNameWellFormed | no_cloth_sims_lite.py:87-129 | whatever the path, the decoded name is well formed in that sense |
| NoClothSimsLite.DisplayNameOfPlain | no_cloth_sims_lite.py:128 | a name without `_` or surrounding whitespace is only title-cased |
| NoClothSimsLite.ExampleNested | no_cloth_sims_lite.py:89 | `/shirt/bruh/anim_lol_10_63` decodes to `("Anim Lol", 10, 63)` |
| NoClothSimsLite.ExampleRest | no_cloth_sims_lite.py:90 | `/shirt/rest` decodes to `("Rest", 0, 0)` |
| NoClothSimsLite.ExampleFlap | no_cloth_sims_lite.py:91 | `/shirt/flap_12` decodes to `("Flap", 0, 12)` |
| NoClothSimsLite.ExampleTrailingSlash | no_cloth_sims_lite.py:92 | `/shirt/` decodes to `("", 0, 0)` |
| NoClothSimsLite.ExampleTopLevel | no_cloth_sims_lite.py:93 | `/shirt` decodes to `("Shirt", 0, 0)` |
| NoClothSimsLite.ExampleRoot | no_cloth_sims_lite.py:94 | `/` decodes to `("", 0, 0)` |
| NoClothSimsLite.ExampleEmpty | no_cloth_sims_lite.py:95-99 | the empty path decodes to `("", 0, 0)` |
| NoClothSimsLite.LoopShape | no_cloth_sims_lite.py:80-85 | the shape for a clip: its start frame, and end - start + 1 as period; stated by `NoClothSimsLite.LoopFromZero` and `NoClothSimsLite.HoldThenLoop` |
| NoClothSimsLite.SetDriver | no_cloth_sims_lite.py:59-85 | for the decoded clip, a zero duration leaves the cache unchanged; otherwise the override is on and the loop with period duration + 1 is installed on the last or a new `frame` driver; with no cache only a non-zero duration raises `AttributeError` |
| NoClothSimsLite.SetClipDriver | no_cloth_sims_lite.py:61-85 | the same for a clip already decoded; the new override flag and drivers are given by the predicate `NoClothSimsLite.DriverSet`: both unchanged when end equals start, otherwise the override on and `Host.Installed` of the drivers with the clip's loop expression |
| NoClothSimsLite.SetAnim | no_cloth_sims_lite.py:147-158 | no cache file raises `AttributeError` and an invalid index raises `IndexError`, both changing nothing; otherwise the selected object path becomes the modifier's path and its clip drives the cache as `set_driver` does |
| NoClothSimsLite.UpdateDriver | no_cloth_sims_lite.py:160-164 | the modifier's current object path drives its cache with the new speed and offset, with `set_driver`'s outcome when there is no cache file |
| NoClothSimsLite.LoopFromZero | no_cloth_sims_lite.py:80-82 | a clip from 0 to end > 0 loops through frames 0 .. end and plays them unchanged |
| NoClothSimsLite.HoldThenLoop | no_cloth_sims_lite.py:83-85 | a clip with a non-zero start before its end holds frames up to the start, then stays in [start, end] and repeats every end - start + 1 frames |
| NoClothSimsLite.LoopOfThirtyFrames | no_cloth_sims_lite.py:80-82 | `<prefix>/<base>_0_29` gives `% 30`, and frames 0, 29, 30, 59, 60 show 0, 29, 0, 29, 0 |
| NoClothSimsLite.ImpactThenLoop | no_cloth_sims_lite.py:83-85 | `<prefix>/<base>_10_39` holds frames up to 10 and then loops within 10 .. 39 |
| NoClothSimsLite.EndBeforeStartZeroPeriod | no_cloth_sims_lite.py:61-85 | a clip whose end is one before its start passes the zero-duration guard, and its expression raises at every frame |

## Left out

- The panels, UI lists, operators and registration of both add-ons are not in the model. They are user-interface code over the host.
- `load_cache` in both add-ons is not modelled. It opens a file through the host. `NoClothSims.SetAnimLib` takes the loaded cache as a parameter.
- The timer is not modelled. `set_anim_lib` uses it to run `update_anims` a moment later. `NoClothSims.Poll` and `NoClothSims.UpdateAnims` model what that deferred call does.
- The random offset is not modelled. The operators that add the modifier pick it, and it is host randomness.
- Float arithmetic is not modelled. Speed and offset are `real`, and `f"{speed}"` formatting is the parameter `show`. The expression is evaluated for integer frames only.
- Text is ASCII only. `title`, `strip`, `in` and `int()` are modelled for ASCII characters. Unicode case mapping, Unicode whitespace and non-ASCII digits are left out.
- PyText.ParseInt: does not model the limit of 4300 digits that CPython 3.10.7 and later put on `int()` of text, so a suffix of more digits reads as its value where Python raises `ValueError` and the bare `except` keeps 0.
- PyText.IntToString: does not model the same limit on `f"{n}"`, so a loop period or start frame of more than 4300 digits gets its expression written, where Python raises `ValueError` after the driver is chosen and the override is set.
- PyText.IntRoundTrip: holds for every integer only because that digit limit is left out.
- PyText.ParseInt: requires the text to hold no `_`, so Python's digit-group underscores are not modelled. `parse_path` only hands `int()` text taken after the last `_`, so none is ever reached.
- Host.ChildrenRecursive: uses pre-order (each child, then its descendants). The host defines the order of `children_recursive`, and the model fixes this one.
- `get_anim_libs` in both add-ons is not modelled. It returns enum items for the UI. The lookups it makes are `NoClothSims.GetSupportedData` and `NoClothSimsLite.FindFirstObject`.
- The lite `set_anim_lib` is not modelled. Its `load_cache` raises `NameError` (`os` is never imported), so it never reaches the assignment of the cache file; the handlers model the modifier it leaves without one.
- The early returns when `nc_target`, `nc_item` or `nc_modifier` is missing from the context are not modelled: the handlers are modelled from the point where those are present.
- `object.select_set(True)` in `update_anims` is not modelled. It only refreshes the UI.
- NoClothSimsLite.SetAnim and NoClothSimsLite.UpdateDriver: the list data's `selected_index`, `speed` and `offset` are passed in as values, because those handlers only read them.
- The other Python files of the repository (`british_weather.py`, `disable_subdiv.py`) are not part of this model.
