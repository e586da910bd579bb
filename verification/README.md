# dedent, modelled in Dafny

This project models `dedent` from `editor.js`, the template-literal helper that removes
common indentation from a code snippet before it is shown in the editor. The model
also covers its inner `interpolate` and the constants `TAB_LENGTH` and `INDENT_REGEXP`.

`dedent` accepts either a plain string or the fragments of a tagged template together
with the interpolated values. It works in four steps:

1. **Fallback check.** It scans the fragments in order. If some line break is followed
   by a character outside `[\f\r\n\t ]`, it stops and only interpolates.
2. **Collect runs.** Otherwise it collects every match of `\n(\t| {2})+`: a line break
   followed by a greedy run of indentation units, where a unit is a tab or two spaces.
3. **Strip.** The width `size` is the shortest collected match minus its line break.
   Every `\n` followed by `size` tabs or spaces is replaced by a bare `\n`.
4. **Rejoin and trim.** The fragments and values are joined with an inserted `"\n"`,
   and the result is trimmed.

The project has five modules, one file each:

- `JsString` (`js_string.dfy`) holds the JavaScript built-ins that `dedent` uses:
  - `String.prototype.trim`, with the exact ECMAScript WhiteSpace and LineTerminator set;
  - `Array.prototype.join`;
  - a `Lines` view (`split("\n")`) with its round trips, used to state what the patterns do.
- `IndentPatterns` (`indent_patterns.dfy`) writes each regular expression as a
  character-level scanner. Each scanner is tied to a line-by-line description of its effect.
- `Dedent` (`dedent.dfy`) holds the operation itself:
  - the loops are methods over an `array<string>` of fragments, as in `editor.js`;
  - `DedentOf` is the function that specifies them.
- `DedentProperties` (`dedent_properties.dfy`) states what `dedent` promises, about `DedentOf`.
- `DedentExamples` (`dedent_examples.dfy`) works one input through two passes.

Two points where the code does not do what its comments or a reader might expect. The
model follows the code in both.

- **The width counts characters, not units.** The comment at editor.js:162-164 says a
  tab is worth two spaces. The width at editor.js:222, however, is a match's length in
  characters, and a tab counts as one. The strip pattern at editor.js:223 then removes
  that many characters, each a tab or a space, in any mix.
- **`dedent` is not idempotent.** A run of three spaces counts as one unit, so one space
  survives the strip. A second pass can therefore strip lines that the first pass left
  indented. `DedentExamples.DedentIsNotIdempotent` proves this on `"a\n   x\n    y"`:
  the first pass gives `"a\n x\n  y"` and the second gives `"a\n x\ny"`.

## Model

| member | source | states |
|---|---|---|
| JsString.Trim | editor.js:193 | The trimmed text has no whitespace at either end and is no longer than its input. |
| JsString.TrimKeepsMiddle | editor.js:193 | `trim` keeps one contiguous middle part of the text and drops only whitespace before and after it. |
| JsString.TrimOfPadded | editor.js:193 | Whitespace, then a middle with no outer whitespace, then whitespace, trims to exactly that middle. Together with TrimKeepsMiddle this pins `trim` down. |
| JsString.JoinSnoc | editor.js:193 | Joining one more part appends the separator and then the part. |
| IndentPatterns.ScanUnindented | editor.js:204 | The scanner for `/\n[^\f\r\n\t ]/` returns true exactly when some line break is followed by a character outside `\f \r \n \t` and space. |
| IndentPatterns.UnitRun | editor.js:165-167 | The greedy run of INDENT_REGEXP units (a tab or two spaces) is made of units and is followed by no further unit. Every character in it is a tab or a space. |
| IndentPatterns.UnitRunIsLongest | editor.js:167 | Every prefix made of units is no longer than the greedy run, so the run is the longest match of a repeated INDENT_REGEXP. |
| IndentPatterns.IndentMatches | editor.js:210 | Every match of the global pattern (a line break, then one or more INDENT_REGEXP units) starts with a line break and is at least two characters long. |
| IndentPatterns.IndentMatchesByLines | editor.js:210 | The global match yields, in order, one match for each line after the first that starts with a unit. That match is the line break plus the line's greedy run. |
| IndentPatterns.LineMatchesMembers | editor.js:210 | A string is among a list of lines' matches exactly when it is the break plus the run of a line that starts with a unit. |
| IndentPatterns.IndentWidth | editor.js:223 | A line's indentation is the number of leading tabs and spaces: all of them are indentation characters, and the next character is not. |
| IndentPatterns.IndentWidthAfterDrop | editor.js:223-226 | Removing `k` leading tabs or spaces lowers the indentation by exactly `k`. |
| IndentPatterns.StripByLines | editor.js:223-226 | Replacing each line break followed by `k` tabs or spaces with a bare line break keeps the number of lines and the first line. Every later line becomes its StripLine. |
| IndentPatterns.StripRemovesOnlyIndent | editor.js:223-226 | The strip deletes only tabs and spaces: every other character, line breaks included, keeps its count. |
| Dedent.JoinedOne | editor.js:187-193 | A single fragment with no values is joined as it is, with no line break inserted. |
| Dedent.JoinedSnoc | editor.js:186-193 | Each further value and fragment is appended after one inserted `"\n"`, so the joined text is `strings[0] + "\n" + values[0] + strings[1] + … + strings[n]`. |
| Dedent.Interpolate | editor.js:185-194 | The counted push loop returns `Interpolation`, the trimmed join of the parts, and the result has no outer whitespace. |
| Dedent.AllMatches | editor.js:212 | Every collected match is at least two characters long. |
| Dedent.MinWidth | editor.js:222 | `Math.min` over `length - 1` equals `length - 1` of some match and is at most that of every match. |
| Dedent.StripWidth | editor.js:221-222 | When there are matches, the width is at least 1. |
| Dedent.ScanFragments | editor.js:197-214 | The scan loop with `break` reports dedentable exactly when no fragment has an unindented line. In that case the collected matches are those of all fragments, in order. |
| Dedent.StripFragments | editor.js:221-228 | The in-place loop replaces each fragment by its strip and nothing else. |
| Dedent.Dedent | editor.js:174-232 | The result equals `DedentOf` of the fragments and values. The method has no `modifies` clause, so the caller's array is copied and left unchanged (editor.js:179). |
| DedentProperties.AllMatchesMembers | editor.js:200-213 | A collected match is exactly a match of one of the fragments. |
| DedentProperties.MatchesAreCountedRuns | editor.js:209-213 | The collected matches are exactly the line break plus run of every counted line: a line after the first, in some fragment, that starts with a unit. |
| DedentProperties.HasMatchesIff | editor.js:209-213 | `matches.length` is non-zero exactly when some counted line exists. |
| DedentProperties.StripWidthIsShortestRun | editor.js:210-222 | The width is at most the run of every counted line and equals the run of some counted line, measured in characters. |
| DedentProperties.FallbackKeepsFragments | editor.js:204-206 | One line break followed by a character outside `[\f\r\n\t ]`, in any fragment, makes the result the interpolation of the unmodified fragments. |
| DedentProperties.NoRunKeepsFragments | editor.js:209-221 | When no line after a line break starts with a unit, the fragments are interpolated unmodified. |
| DedentProperties.PlainText | editor.js:176-193 | A plain string is one fragment with no values. The result is the string, stripped when it is dedentable and has runs, then trimmed, with no line break inserted. |
| DedentProperties.DedentedLines | editor.js:223-226 | Each fragment keeps its number of line breaks, its number of lines and its first line. A counted line loses exactly `size` leading tabs or spaces, so its indentation drops by `size` and relative indentation among counted lines is kept. A line with fewer than `size` leading tabs or spaces is unchanged. |
| DedentExamples.FirstPass | editor.js:174-232 | `"a\n   x\n    y"` dedents to `"a\n x\n  y"`: the width is 2, so the three-space line keeps one space. |
| DedentExamples.SecondPass | editor.js:174-232 | `"a\n x\n  y"` dedents to `"a\n x\ny"`: the one-space line is not counted and is too short to strip. |
| DedentExamples.DedentIsNotIdempotent | editor.js:220-228 | Dedenting the first result again changes it. |

## Left out

- Everything in `editor.js` outside `dedent` is not part of this model:
  - `debounce` (editor.js:12-18) is timer scheduling on the event loop.
  - The `DragonRubyEditor` class is CodeMirror setup, a foreign library. This includes its constructor, `sync`, the `value` setter and `disconnect` (editor.js:20-110). `sync` is also asynchronous file I/O and polling with `setTimeout`.
  - The `MutationObserver` callback and the `controllers` map (editor.js:113-160, 235-240) are DOM queries.
  - `console.log` calls are diagnostics only.
- Dedent.Dedent: interpolated values are modelled as strings. JavaScript's ToString coercion of `values[i]` (editor.js:190) for numbers, objects and `null` is not modelled. An `undefined` read past the end of `strings` is modelled as the text `"undefined"`.
- Dedent.Dedent: the first argument is a string or an array of strings. A `TemplateStringsArray`'s `raw` property, and arguments of other types, are not modelled.
- The regular expressions are modelled by the scanners they denote, not by a regular-expression engine. `replaceAll` and the global `match` are taken to scan left to right without overlapping, as ECMAScript specifies.
- Dedent.MinWidth: the limit on the number of arguments a spread call may take is not modelled, neither for `Math.min(...matches)` (editor.js:222) nor for `matches.push(...match)` (editor.js:212); both throw a `RangeError` for very many matches.
