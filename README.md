# Shopping-list parser

This project models `parseShoppingList`, the parser in `convex/recipes.ts`. It
takes the free-text reply of a language model and turns it into an ordered list
of shopping-list categories. Each category is `{ category, items }`: a display
label and a list of item strings. The record shape comes from
`convex/schema.ts`.

The parser makes one pass over the lines of the reply. It keeps an open label
and the items collected under it:

- A trimmed line ending in `:` is a header. It closes the open category and
  opens a new one. The new label is the line without its colon.
- A line starting with a bullet (`-`, `•` or `*`) or a number (`12.`),
  followed by whitespace, is an item.
- Any other non-blank line is an item too, but only when a label is open and
  the line has no colon.
- A category is emitted only if its label and its item list are both
  non-empty.
- If nothing was emitted and the reply is not blank, the result is one
  `"Items"` category holding every non-blank raw line.

Files:

- `JsString.dfy` (module `JsString`): the JavaScript string built-ins the
  parser uses, over `seq<char>`. This covers `trim()`, `split("\n")`, and the
  whitespace set that `trim()` and `\s` share (the ECMAScript WhiteSpace and
  LineTerminator code points).
- `Recipes.dfy` (module `Recipes`):
  - the `Category` datatype;
  - the three regular expressions, written as character predicates;
  - `ParseShoppingList`, the loop itself, as a method;
  - `ShoppingListOf`, an independent description of its result, section by
    section. Each header line opens a section that runs to the next header.
    Lines before the first header belong to no section. The fallback applies
    when no section produced a category;
  - the lemmas about that description.
- `Examples.dfy` (module `RecipeExamples`): a literal reply worked through
  line by line.

The method's postcondition says that it returns `ShoppingListOf(response)`. Its
loop invariant says that the categories closed so far, plus the open category
with what the rest of its section adds, plus the sections still ahead, make up
all the sections of the reply.

The model follows the code as written, including three behaviours that a
reader of the comments might not expect:

- Numbered items keep their number. The stripping expression
  `^[-•*\d+\.]\s` is a one-character class followed by whitespace, so it
  never matches `1. Cumin` (`NumberedItemKeepsNumber`,
  `NumberedItemExample`).
- Items before the first header are dropped. They are not attached to a later
  category, because opening a header resets the item list (`PreambleDropped`).
- Fallback items are the raw lines, not trimmed ones. The fallback also fires
  when headers were present but every section was empty.

## Model

| member | source | states |
|---|---|---|
| `JsString.WhitespaceClass` | convex/recipes.ts:171 | `IsWhitespace`, the set that `trim()` removes and `\s` matches, holds the space, tab, line feed and carriage return, and no digit, dot or colon |
| `JsString.Trim` | convex/recipes.ts:171 | `line.trim()`: the result is empty exactly when the input is all whitespace, and otherwise starts and ends with a non-whitespace character |
| `JsString.TrimIsInfix` | convex/recipes.ts:171 | `trim()` cuts only from the ends: its result is a slice of the input with only whitespace before and after it (with `Trim`'s own contract this fixes the result) |
| `JsString.TrimEnd` | convex/recipes.ts:171 | the trailing half of `trim()`: the result is a prefix of the input, everything cut off is whitespace, and the result does not end in whitespace |
| `JsString.TrimTrimmed` | convex/recipes.ts:190 | a string that is empty, or starts and ends with non-whitespace, is its own trim (so the item pushed at line 195 and a trimmed numbered line are unchanged by trimming) |
| `JsString.TrimKeepsLast` | convex/recipes.ts:190 | trimming a string that ends in a non-whitespace character keeps that character last (why a stripped bullet is never empty) |
| `JsString.SplitLines` | convex/recipes.ts:168 | `response.split("\n")`: there is at least one piece and no piece contains a line feed |
| `JsString.JoinLines` | convex/recipes.ts:168 | the inverse of the split, used to state the round trips: the first line comes first, followed by a line feed when more lines follow, and a single line joins to itself |
| `JsString.JoinSplitLines` | convex/recipes.ts:168 | joining the pieces of a split with line feeds gives back the original string |
| `JsString.SplitJoinLines` | convex/recipes.ts:168 | splitting a join of line-feed-free pieces gives back the pieces |
| `JsString.SplitLinesBlank` | convex/recipes.ts:172 | the reply is all whitespace exactly when every line is, so `response.trim()` at line 208 agrees with the per-line blank test at line 172 |
| `Recipes.HeaderLabel` | convex/recipes.ts:185 | `trimmedLine.slice(0, -1)` on a line that `endsWith(":")`: the label followed by a colon is the line |
| `Recipes.HeaderOfLabel` | convex/recipes.ts:175-185 | `IsHeader` (`endsWith(":")`) holds for every label followed by a colon, and slicing the colon off gives the label back |
| `Recipes.DigitRun` | convex/recipes.ts:189 | the length of the leading run of ASCII digits: every character before it is a digit and the next one is not |
| `Recipes.NumberedItemMatchesRegex` | convex/recipes.ts:189 | `IsNumberedItem` decides `/^\d+\.\s/` exactly: the expression matches with some digit count if and only if it matches with the full leading digit run |
| `Recipes.BulletItemStripped` | convex/recipes.ts:189-190 | a line matching `IsBulletItem` (`/^[-•*]\s/`, markers `IsBulletMarker`) never matches `/^\d+\.\s/`, and the stripping expression removes exactly its marker and the whitespace after it |
| `Recipes.NumberedItemUnstripped` | convex/recipes.ts:189-190 | a line matching `/^\d+\.\s/` starts with a digit and is at least three characters long, and the stripping expression leaves it unchanged |
| `Recipes.StripMarkerCuts` | convex/recipes.ts:190 | `StripMarker`, `replace(/^[-•*\d+\.]\s/, "")` with its one-character class `InStripClass`, removes nothing or the first two characters, and removes two exactly when the line starts with a class character and a whitespace character |
| `Recipes.NumberedItemKeepsNumber` | convex/recipes.ts:189-191 | for a numbered line, the `replace(...).trim()` of line 190 returns the trimmed line unchanged, number and dot included |
| `Recipes.BulletItemText` | convex/recipes.ts:189-191 | for a bullet line, the item is the line without its marker and the one whitespace character after it, trimmed; it is non-empty and ends with the line's last character |
| `Recipes.LineItemsShape` | convex/recipes.ts:172-196 | `LineItems`, what one line adds to the open category: at most one item; none for a blank or header line; exactly one for a list line whatever the open label; none but list items while no label is open; and a plain line that adds itself has no colon |
| `Recipes.LineItemsClean` | convex/recipes.ts:172-196 | whatever a non-header line adds to the open category (a stripped bullet, a numbered line, or a continuation line) is non-empty, trimmed and does not end in a colon |
| `Recipes.BodyItemsClean` | convex/recipes.ts:189-196 | every item collected between two headers is non-empty, trimmed and does not end in a colon |
| `Recipes.HeaderSectionsWellFormed` | convex/recipes.ts:175-205 | every category of the structured path has a non-empty label, at least one item, and only non-empty, trimmed items that are never header lines |
| `Recipes.NonBlankLines` | convex/recipes.ts:209 | `lines.filter(line => line.trim())`: a line is in the result exactly when it is in the input with a non-empty trim, and the result is never longer than the input |
| `Recipes.NonBlankLinesAppend` | convex/recipes.ts:209 | filtering a concatenation filters each part in turn, so kept lines stay in their order and repeated lines are all kept |
| `Recipes.NonBlankLinesOne` | convex/recipes.ts:209 | a single line is kept, untrimmed, exactly when its trim is non-empty; with `NonBlankLinesAppend` this fixes the filter on every list of lines |
| `Recipes.ShoppingListOf` | convex/recipes.ts:163-213 | the section-by-section description of what the parser returns; it is empty exactly when the reply is blank, so a non-blank reply always yields at least the fallback category |
| `Recipes.BlankReplyNoSections` | convex/recipes.ts:172 | a blank reply has no header line and so yields no section |
| `Recipes.ParseShoppingList` | convex/recipes.ts:163-213 | the loop with its header, item and continuation branches, the final close and the fallback returns exactly `ShoppingListOf(response)`, the section-by-section description |
| `Recipes.HeaderStep` | convex/recipes.ts:175-187 | a header line emits the open category only when its label and items are non-empty, then opens its own label with no items, and the scan invariant is kept |
| `Recipes.ItemStep` | convex/recipes.ts:189-196 | a bullet, numbered or continuation line appends its item to the open category, and the scan invariant is kept |
| `Recipes.SkipStep` | convex/recipes.ts:172-196 | a blank line, or a colon-bearing or unopened non-list line, changes nothing, and the scan invariant is kept |
| `Recipes.ClosingStep` | convex/recipes.ts:199-205 | after the last line, closing the open category (only if label and items are non-empty) completes the sections |
| `Recipes.PreambleDropped` | convex/recipes.ts:184-186 | lines before the first header contribute nothing: no category, and no item to any later category |
| `Recipes.EmptySectionDiscarded` | convex/recipes.ts:177-186 | a header whose section has no item is discarded silently; the result is as if it were absent |
| `Recipes.NoHeaderNoSections` | convex/recipes.ts:175 | lines without any header produce no structured category |
| `Recipes.BodyItemsStopAtHeader` | convex/recipes.ts:175-186 | the items of a section stop at the next header line, whatever follows it |
| `Recipes.SectionsCons` | convex/recipes.ts:170-197 | the sections of a list of lines are the one its first line opens, followed by those of the remaining lines |
| `Recipes.SectionsAppend` | convex/recipes.ts:175-205 | cutting the reply just before a header line cuts its categories there: the result is the categories of the first part followed by those of the second, none merged across the cut |
| `Recipes.SingleSection` | convex/recipes.ts:175-205 | a header followed by lines without a header yields its label with those lines' items, or nothing |
| `Recipes.SectionsNotMerged` | convex/recipes.ts:177-205 | two sections give two separate categories even when they share a label: the items of a repeated header never join the earlier category |
| `Recipes.LabelsFollowHeaders` | convex/recipes.ts:175-186 | the labels of the emitted categories are a subsequence of the header labels, in header order |
| `Recipes.NonBlankHasLine` | convex/recipes.ts:208-209 | a non-blank reply has at least one non-blank line, so the fallback category is never empty |
| `Recipes.ShoppingListWellFormed` | convex/recipes.ts:177-210 | every category returned, structured or fallback, has a non-empty label and at least one item, and every item is a non-empty string |
| `Recipes.FallbackWithoutHeaders` | convex/recipes.ts:208-210 | a non-blank reply with no header line gives exactly one `"Items"` category holding the non-blank lines, untrimmed, in order |
| `RecipeExamples.NumberedItemExample` | convex/recipes.ts:163-213 | the reply `"Spices:\n1. Cumin"` gives one "Spices" category whose item is `"1. Cumin"`, number kept |
| `RecipeExamples.SpicesLines` | convex/recipes.ts:168 | that reply splits into `"Spices:"` and `"1. Cumin"` |
| `RecipeExamples.SpicesSections` | convex/recipes.ts:175-205 | those two lines give the single category `"Spices"` with the item `"1. Cumin"` |
| `RecipeExamples.SpicesHeader` | convex/recipes.ts:175-185 | `"Spices:"` is a header labelled "Spices" |
| `RecipeExamples.CuminItem` | convex/recipes.ts:189-191 | `"1. Cumin"` is not a header and adds itself unchanged to the open category |

## Left out

- `generateShoppingList` (convex/recipes.ts:34-105) is not modelled. It calls
  the OpenAI API over the network, reads an environment variable, lazily
  creates a module-level client and re-wraps errors.
- `storeRecipe`, `getUserRecipes`, `getRecipeById` and `deleteRecipe`
  (convex/recipes.ts:11-160) are not modelled. They are thin wrappers over the
  Convex database and authentication context, which the model cannot see.
- The React and Next.js components are presentation only and are not
  modelled.
- `convex/schema.ts` is a declaration with no behaviour. Only its record shape
  is used, as `Category`.
- The regular-expression engine is not modelled. Each of the three
  expressions is replaced by a character predicate that decides the same
  match.
- JavaScript strings are sequences of UTF-16 code units. The model uses
  Unicode scalar values, so a lone surrogate cannot be written. Every
  character the parser tests for is in the Basic Multilingual Plane, so
  nothing else changes.
- Only one literal reply is worked through, in `Examples.dfy`
  (`NumberedItemExample`). Each such example is built line by line from the
  general lemmas, and the other behaviours are stated only by those lemmas.
