/**
 * The shopping-list parser of convex/recipes.ts: it turns the free-text
 * reply of the language model into an ordered list of categories, each a
 * label with its items.
 *
 * `ParseShoppingList` is the parser itself, a single scan over the lines of
 * the reply. `ShoppingListOf` says the same thing section by section: every
 * header line opens a section that runs to the next header, a section becomes
 * a category when its label and its items are non-empty, lines before the
 * first header belong to no section, and a non-blank reply that yields no
 * category at all falls back to one "Items" category of its raw lines.
 */
module Recipes {
  import opened JsString

  /** One record of a shopping list: `{ category, items }`. */
  datatype Category = Category(category: string, items: seq<string>)

  /** The label of the catch-all category. */
  const FallbackLabel: string := "Items"

  // ---------------------------------------------------------------------
  // Classifying one trimmed line
  // ---------------------------------------------------------------------

  /** `trimmedLine.endsWith(":")`. */
  predicate IsHeader(t: string) {
    |t| > 0 && t[|t| - 1] == ':'
  }

  /** `trimmedLine.slice(0, -1)`: the header without its colon. */
  function HeaderLabel(t: string): (r: string)
    requires IsHeader(t)
    ensures r + ":" == t
  {
    t[..|t| - 1]
  }

  /** Every label followed by a colon is a header, and `slice(0, -1)` gives
      the label back. */
  lemma HeaderOfLabel(category: string)
    ensures IsHeader(category + ":") && HeaderLabel(category + ":") == category
  {
  }

  /** The class `[-•*]`. */
  predicate IsBulletMarker(c: char) {
    c == '-' || c == '\U{2022}' || c == '*'
  }

  /** `/^[-•*]\s/`. */
  predicate IsBulletItem(t: string) {
    |t| >= 2 && IsBulletMarker(t[0]) && IsWhitespace(t[1])
  }

  /** The length of the run of digits that starts `t`. */
  function DigitRun(t: string): (n: nat)
    ensures n <= |t|
    ensures forall j :: 0 <= j < n ==> IsDigit(t[j])
    ensures n < |t| ==> !IsDigit(t[n])
  {
    if t != [] && IsDigit(t[0]) then 1 + DigitRun(t[1..]) else 0
  }

  /** `/^\d+\.\s/`, matched greedily: the digit run is followed by a dot and
      a whitespace character. */
  predicate IsNumberedItem(t: string) {
    var k := DigitRun(t);
    k >= 1 && k + 1 < |t| && t[k] == '.' && IsWhitespace(t[k + 1])
  }

  /** The regular expression `^\d+\.\s` matches at `t` with `k` digits. */
  ghost predicate NumberedMatchAt(t: string, k: nat) {
    1 <= k && k + 1 < |t| && (forall j :: 0 <= j < k ==> IsDigit(t[j]))
    && t[k] == '.' && IsWhitespace(t[k + 1])
  }

  /** The class `[-•*\d+\.]` of the stripping expression: one character that
      is a bullet marker, a digit, a plus sign or a dot. */
  predicate InStripClass(c: char) {
    IsBulletMarker(c) || IsDigit(c) || c == '+' || c == '.'
  }

  /** `t.replace(/^[-•*\d+\.]\s/, "")`: drop one class character and the
      whitespace character after it, when `t` starts that way. */
  function StripMarker(t: string): string {
    if |t| >= 2 && InStripClass(t[0]) && IsWhitespace(t[1]) then t[2..] else t
  }

  /** The item text that a list line contributes. */
  function ListItemText(t: string): string {
    Trim(StripMarker(t))
  }

  // ---------------------------------------------------------------------
  // The section view of a reply
  // ---------------------------------------------------------------------

  /** A raw line whose trimmed text ends with a colon. */
  predicate IsHeaderLine(line: string) {
    IsHeader(Trim(line))
  }

  /** The items that one non-header line adds to the open category. A list
      line always adds one; any other non-blank line adds itself only when
      the open label is non-empty and the line has no colon. */
  function LineItems(category: string, line: string): seq<string> {
    var t := Trim(line);
    if t == "" || IsHeader(t) then []
    else if IsBulletItem(t) || IsNumberedItem(t) then [ListItemText(t)]
    else if category != "" && ':' !in t then [t]
    else []
  }

  /** The items of the lines that precede the first header line. */
  function BodyItems(category: string, lines: seq<string>): seq<string> {
    if lines == [] || IsHeaderLine(lines[0]) then []
    else LineItems(category, lines[0]) + BodyItems(category, lines[1..])
  }

  /** The category a section yields: none when its label or its items are empty. */
  function Emit(category: string, items: seq<string>): seq<Category> {
    if category != "" && |items| > 0 then [Category(category, items)] else []
  }

  /** One category per header line whose section has a non-empty label and at
      least one item, in the order of the headers. */
  function HeaderSections(lines: seq<string>): seq<Category> {
    if lines == [] then []
    else if IsHeaderLine(lines[0]) then
      var category := HeaderLabel(Trim(lines[0]));
      Emit(category, BodyItems(category, lines[1..])) + HeaderSections(lines[1..])
    else HeaderSections(lines[1..])
  }

  /** `lines.filter(line => line.trim())`: the non-blank lines, untrimmed. */
  function NonBlankLines(lines: seq<string>): (r: seq<string>)
    ensures |r| <= |lines|
    ensures forall x :: x in r <==> x in lines && Trim(x) != ""
  {
    if lines == [] then []
    else (if Trim(lines[0]) != "" then [lines[0]] else []) + NonBlankLines(lines[1..])
  }

  /** What `parseShoppingList(response)` returns. It is empty exactly when
      the reply is blank: a non-blank reply yields at least the fallback. */
  function ShoppingListOf(response: string): (r: seq<Category>)
    ensures r == [] <==> AllWhitespace(response)
  {
    var lines := SplitLines(response);
    var sections := HeaderSections(lines);
    BlankReplyNoSections(response);
    if sections == [] && Trim(response) != "" then [Category(FallbackLabel, NonBlankLines(lines))]
    else sections
  }

  // ---------------------------------------------------------------------
  // The parser
  // ---------------------------------------------------------------------

  /** `parseShoppingList`: one scan over the lines that keeps the open label
      and its items, closes a category at every header and at the end, and
      falls back to the raw non-blank lines when nothing was closed. */
  method ParseShoppingList(response: string) returns (result: seq<Category>)
    ensures result == ShoppingListOf(response)
  {
    var categories: seq<Category> := [];
    var currentCategory := "";
    var currentItems: seq<string> := [];
    var lines := SplitLines(response);
    for i := 0 to |lines|
      invariant categories + Emit(currentCategory, currentItems + BodyItems(currentCategory, lines[i..]))
                  + HeaderSections(lines[i..]) == HeaderSections(lines)
    {
      var line := lines[i];
      var trimmedLine := Trim(line);
      if trimmedLine == "" {
        SkipStep(categories, currentCategory, currentItems, lines, i);
        continue;
      }
      if IsHeader(trimmedLine) {
        ghost var done, open, openItems := categories, currentCategory, currentItems;
        if currentCategory != "" && |currentItems| > 0 {
          categories := categories + [Category(currentCategory, currentItems)];
        }
        currentCategory := trimmedLine[..|trimmedLine| - 1];
        currentItems := [];
        HeaderStep(done, open, openItems, lines, i, categories, currentCategory);
      } else if IsBulletItem(trimmedLine) || IsNumberedItem(trimmedLine) {
        var item := Trim(StripMarker(trimmedLine));
        ItemStep(categories, currentCategory, currentItems, lines, i, [item]);
        currentItems := currentItems + [item];
      } else if currentCategory != "" && ':' !in trimmedLine {
        ItemStep(categories, currentCategory, currentItems, lines, i, [trimmedLine]);
        currentItems := currentItems + [trimmedLine];
      } else {
        SkipStep(categories, currentCategory, currentItems, lines, i);
      }
    }
    ClosingStep(categories, currentCategory, currentItems, lines);
    if currentCategory != "" && |currentItems| > 0 {
      categories := categories + [Category(currentCategory, currentItems)];
    }
    if |categories| == 0 && Trim(response) != "" {
      return [Category(FallbackLabel, NonBlankLines(SplitLines(response)))];
    }
    return categories;
  }

  /** A header line closes the open category and opens its own, with no items. */
  lemma HeaderStep(done: seq<Category>, category: string, items: seq<string>, lines: seq<string>, i: nat,
                   closed: seq<Category>, next: string)
    requires i < |lines| && IsHeaderLine(lines[i]) && next == HeaderLabel(Trim(lines[i]))
    requires closed == if category != "" && |items| > 0 then done + [Category(category, items)] else done
    ensures done + Emit(category, items + BodyItems(category, lines[i..])) + HeaderSections(lines[i..])
      == closed + Emit(next, [] + BodyItems(next, lines[i + 1..])) + HeaderSections(lines[i + 1..])
  {
    var all := lines[i..];
    assert all[0] == lines[i] && all[1..] == lines[i + 1..];
    var body := BodyItems(next, lines[i + 1..]);
    var tail := HeaderSections(lines[i + 1..]);
    assert BodyItems(category, all) == [];
    assert HeaderSections(all) == Emit(next, body) + tail;
    assert items + [] == items;
    assert [] + body == body;
    assert done + Emit(category, items) == closed;
    Regroup(closed + (Emit(next, body) + tail), closed, Emit(next, body) + tail,
            closed + Emit(next, body), Emit(next, body), tail);
  }

  /** A line that is not a header adds its items to the open category. */
  lemma ItemStep(done: seq<Category>, category: string, items: seq<string>, lines: seq<string>, i: nat,
                 added: seq<string>)
    requires i < |lines| && !IsHeaderLine(lines[i]) && LineItems(category, lines[i]) == added
    ensures done + Emit(category, items + BodyItems(category, lines[i..])) + HeaderSections(lines[i..])
      == done + Emit(category, (items + added) + BodyItems(category, lines[i + 1..])) + HeaderSections(lines[i + 1..])
  {
    var all := lines[i..];
    assert all[0] == lines[i] && all[1..] == lines[i + 1..];
    var body := BodyItems(category, lines[i + 1..]);
    assert BodyItems(category, all) == added + body;
    assert items + (added + body) == (items + added) + body;
  }

  /** A line that is not a header and adds no item changes nothing. */
  lemma SkipStep(done: seq<Category>, category: string, items: seq<string>, lines: seq<string>, i: nat)
    requires i < |lines| && !IsHeaderLine(lines[i]) && LineItems(category, lines[i]) == []
    ensures done + Emit(category, items + BodyItems(category, lines[i..])) + HeaderSections(lines[i..])
      == done + Emit(category, items + BodyItems(category, lines[i + 1..])) + HeaderSections(lines[i + 1..])
  {
    var all := lines[i..];
    assert all[0] == lines[i] && all[1..] == lines[i + 1..];
    var body := BodyItems(category, lines[i + 1..]);
    assert BodyItems(category, all) == [] + body;
    assert [] + body == body;
  }

  /** After the last line, closing the open category completes the sections. */
  lemma ClosingStep(done: seq<Category>, category: string, items: seq<string>, lines: seq<string>)
    requires done + Emit(category, items + BodyItems(category, lines[|lines|..]))
               + HeaderSections(lines[|lines|..]) == HeaderSections(lines)
    ensures done + Emit(category, items) == HeaderSections(lines)
  {
    assert lines[|lines|..] == [];
    assert items + [] == items;
  }

  // ---------------------------------------------------------------------
  // Line classification
  // ---------------------------------------------------------------------

  /** The greedy digit count decides `^\d+\.\s` exactly: the expression
      matches with some digit count if and only if it matches with the
      length of the leading digit run. */
  lemma NumberedItemMatchesRegex(t: string)
    ensures IsNumberedItem(t) <==> exists k: nat :: NumberedMatchAt(t, k)
  {
    var n := DigitRun(t);
    if IsNumberedItem(t) {
      assert NumberedMatchAt(t, n);
    }
    if k: nat :| NumberedMatchAt(t, k) {
      assert n == k;
    }
  }

  /** The stripping expression removes nothing, or exactly the first two
      characters when they are a class character and a whitespace character. */
  lemma StripMarkerCuts(t: string)
    ensures StripMarker(t) == t || (|t| >= 2 && StripMarker(t) == t[2..])
    ensures |t| >= 2 && InStripClass(t[0]) && IsWhitespace(t[1]) <==> |StripMarker(t)| + 2 == |t|
  {
  }

  /** A bullet line is never a numbered line, and the stripping expression
      removes exactly its marker and the whitespace character after it. */
  lemma BulletItemStripped(t: string)
    requires IsBulletItem(t)
    ensures !IsNumberedItem(t) && StripMarker(t) == t[2..]
  {
  }

  /** A numbered line starts with a digit followed by a digit or a dot, so
      the stripping expression, which wants whitespace in second place,
      leaves it unchanged. */
  lemma {:induction false} NumberedItemUnstripped(t: string)
    requires IsNumberedItem(t)
    ensures |t| >= 3 && IsDigit(t[0]) && StripMarker(t) == t
  {
    WhitespaceClass(t[1]);
  }

  /** A numbered line keeps its number: the stripping expression is a single
      class character followed by whitespace, and a numbered line has a digit
      or a dot in second place. */
  lemma NumberedItemKeepsNumber(line: string)
    requires IsNumberedItem(Trim(line))
    ensures ListItemText(Trim(line)) == Trim(line)
  {
    NumberedItemUnstripped(Trim(line));
    TrimTrimmed(Trim(line));
  }

  /** A bullet line loses its marker and one whitespace character, and the
      rest is trimmed; what is left keeps the line's final character. */
  lemma BulletItemText(line: string)
    requires IsBulletItem(Trim(line))
    ensures var t := Trim(line);
      ListItemText(t) == Trim(t[2..]) && ListItemText(t) != ""
      && ListItemText(t)[|ListItemText(t)| - 1] == t[|t| - 1]
  {
    var t := Trim(line);
    assert IsWhitespace(t[1]) && !IsWhitespace(t[|t| - 1]);
    assert |t| >= 3;
    assert StripMarker(t) == t[2..];
    TrimKeepsLast(t[2..]);
  }

  /** An item as the structured path emits it: non-empty, already trimmed,
      and never ending in a colon (so never a header line). */
  predicate IsCleanItem(x: string) {
    x != "" && IsTrimmed(x) && !IsHeader(x)
  }

  /** A well-formed category: a non-empty label and at least one item, every
      item clean. */
  predicate IsWellFormed(c: Category) {
    c.category != "" && |c.items| > 0 && forall j :: 0 <= j < |c.items| ==> IsCleanItem(c.items[j])
  }

  /** What one line adds: at most one item; nothing for a blank or header
      line; exactly one for a list line whatever the open label; and, with no
      open label, nothing unless it is a list line. A plain line that adds
      itself has no colon. */
  lemma LineItemsShape(category: string, line: string)
    ensures |LineItems(category, line)| <= 1
    ensures Trim(line) == "" || IsHeaderLine(line) ==> LineItems(category, line) == []
    ensures !IsHeaderLine(line) && (IsBulletItem(Trim(line)) || IsNumberedItem(Trim(line)))
      ==> |LineItems(category, line)| == 1
    ensures category == "" && LineItems(category, line) != []
      ==> IsBulletItem(Trim(line)) || IsNumberedItem(Trim(line))
    ensures LineItems(category, line) != [] && !IsBulletItem(Trim(line)) && !IsNumberedItem(Trim(line))
      ==> ':' !in LineItems(category, line)[0]
  {
  }

  /** Every item a line contributes is clean. */
  lemma LineItemsClean(category: string, line: string)
    ensures forall j :: 0 <= j < |LineItems(category, line)| ==> IsCleanItem(LineItems(category, line)[j])
  {
    var t := Trim(line);
    if t != "" && !IsHeader(t) {
      if IsBulletItem(t) {
        BulletItemClean(line);
      } else if IsNumberedItem(t) {
        NumberedItemKeepsNumber(line);
      }
    }
  }

  lemma BulletItemClean(line: string)
    requires Trim(line) != "" && !IsHeader(Trim(line)) && IsBulletItem(Trim(line))
    ensures IsCleanItem(ListItemText(Trim(line)))
  {
    BulletItemText(line);
  }

  lemma {:induction false} BodyItemsClean(category: string, lines: seq<string>)
    ensures forall j :: 0 <= j < |BodyItems(category, lines)| ==> IsCleanItem(BodyItems(category, lines)[j])
  {
    if lines != [] && !IsHeaderLine(lines[0]) {
      LineItemsClean(category, lines[0]);
      BodyItemsClean(category, lines[1..]);
      var a := LineItems(category, lines[0]);
      var b := BodyItems(category, lines[1..]);
      forall j | 0 <= j < |a + b| ensures IsCleanItem((a + b)[j]) {
        if j < |a| { assert (a + b)[j] == a[j]; } else { assert (a + b)[j] == b[j - |a|]; }
      }
    }
  }

  /** Every category of the structured path has a non-empty label, at least
      one item, and only clean items. */
  lemma {:induction false} HeaderSectionsWellFormed(lines: seq<string>)
    ensures forall i :: 0 <= i < |HeaderSections(lines)| ==> IsWellFormed(HeaderSections(lines)[i])
  {
    if lines != [] {
      HeaderSectionsWellFormed(lines[1..]);
      if IsHeaderLine(lines[0]) {
        var category := HeaderLabel(Trim(lines[0]));
        BodyItemsClean(category, lines[1..]);
        var e := Emit(category, BodyItems(category, lines[1..]));
        var rest := HeaderSections(lines[1..]);
        forall i | 0 <= i < |e + rest| ensures IsWellFormed((e + rest)[i]) {
          if i < |e| { assert (e + rest)[i] == e[i]; } else { assert (e + rest)[i] == rest[i - |e|]; }
        }
      }
    }
  }

  // ---------------------------------------------------------------------
  // Sections
  // ---------------------------------------------------------------------

  /** Lines before the first header contribute nothing: no category, and no
      item to any later category. */
  lemma {:induction false} PreambleDropped(pre: seq<string>, post: seq<string>)
    requires forall i :: 0 <= i < |pre| ==> !IsHeaderLine(pre[i])
    ensures HeaderSections(pre + post) == HeaderSections(post)
  {
    if pre != [] {
      assert !IsHeaderLine(pre[0]);
      assert (pre + post)[0] == pre[0];
      assert (pre + post)[1..] == pre[1..] + post;
      assert HeaderSections(pre + post) == HeaderSections(pre[1..] + post);
      PreambleDropped(pre[1..], post);
    } else {
      assert pre + post == post;
    }
  }

  /** A header whose section holds no item is discarded: it adds nothing
      and what follows is parsed as if it were absent. */
  lemma EmptySectionDiscarded(header: string, lines: seq<string>)
    requires IsHeaderLine(header) && BodyItems(HeaderLabel(Trim(header)), lines) == []
    ensures HeaderSections([header] + lines) == HeaderSections(lines)
  {
    var all := [header] + lines;
    assert all[0] == header && all[1..] == lines;
  }

  /** Lines without a header yield no category. */
  lemma NoHeaderNoSections(lines: seq<string>)
    requires forall i :: 0 <= i < |lines| ==> !IsHeaderLine(lines[i])
    ensures HeaderSections(lines) == []
  {
    PreambleDropped(lines, []);
    assert lines + [] == lines;
  }

  /** The items of a section stop at the next header line, whatever follows it. */
  lemma {:induction false} BodyItemsStopAtHeader(category: string, a: seq<string>, b: seq<string>)
    requires b == [] || IsHeaderLine(b[0])
    ensures BodyItems(category, a + b) == BodyItems(category, a)
  {
    if a == [] {
      assert a + b == b;
    } else {
      assert (a + b)[0] == a[0] && (a + b)[1..] == a[1..] + b;
      if !IsHeaderLine(a[0]) {
        BodyItemsStopAtHeader(category, a[1..], b);
      }
    }
  }

  /** Cutting the reply just before a header line cuts its categories there
      too: the sections on each side are parsed on their own, in order, and
      none of them is merged with one on the other side. */
  lemma {:induction false} SectionsAppend(a: seq<string>, b: seq<string>)
    requires b == [] || IsHeaderLine(b[0])
    ensures HeaderSections(a + b) == HeaderSections(a) + HeaderSections(b)
  {
    if a == [] {
      assert a + b == b;
      assert HeaderSections(a) == [];
    } else {
      SectionsAppend(a[1..], b);
      SectionsAppendStep(a, b);
    }
  }

  /** The inductive step of `SectionsAppend`: from the rest of `a` to `a`. */
  lemma SectionsAppendStep(a: seq<string>, b: seq<string>)
    requires a != [] && (b == [] || IsHeaderLine(b[0]))
    requires HeaderSections(a[1..] + b) == HeaderSections(a[1..]) + HeaderSections(b)
    ensures HeaderSections(a + b) == HeaderSections(a) + HeaderSections(b)
  {
    SectionsConsAppend(a, b);
    FirstSectionStopsAtHeader(a[0], a[1..], b);
    SectionsCons(a);
    Regroup(HeaderSections(a + b), FirstSection(a[0], a[1..]), HeaderSections(a[1..] + b),
            HeaderSections(a), HeaderSections(a[1..]), HeaderSections(b));
  }

  /** Regrouping a concatenation of three lists. */
  lemma Regroup<T>(whole: seq<T>, head: seq<T>, tail: seq<T>, left: seq<T>, middle: seq<T>, right: seq<T>)
    requires whole == head + tail && tail == middle + right && left == head + middle
    ensures whole == left + right
  {
  }

  /** The sections of `a + b` are the one that the first line of `a` opens
      over the rest, then those of the rest. */
  lemma SectionsConsAppend(a: seq<string>, b: seq<string>)
    requires a != []
    ensures HeaderSections(a + b) == FirstSection(a[0], a[1..] + b) + HeaderSections(a[1..] + b)
  {
    var ab := a + b;
    assert ab[0] == a[0] && ab[1..] == a[1..] + b;
    SectionsCons(ab);
  }

  /** The category a header line opens does not reach past the next header. */
  lemma FirstSectionStopsAtHeader(line: string, rest: seq<string>, b: seq<string>)
    requires b == [] || IsHeaderLine(b[0])
    ensures FirstSection(line, rest + b) == FirstSection(line, rest)
  {
    if IsHeaderLine(line) {
      BodyItemsStopAtHeader(HeaderLabel(Trim(line)), rest, b);
    }
  }

  /** The sections of a non-empty list of lines: the one its first line
      opens, then those of the other lines. */
  lemma SectionsCons(lines: seq<string>)
    requires lines != []
    ensures HeaderSections(lines) == FirstSection(lines[0], lines[1..]) + HeaderSections(lines[1..])
  {
    if !IsHeaderLine(lines[0]) {
      assert [] + HeaderSections(lines[1..]) == HeaderSections(lines[1..]);
    }
  }

  /** The category that a line opens when `rest` follows it: none unless it
      is a header line. */
  function FirstSection(line: string, rest: seq<string>): seq<Category> {
    if IsHeaderLine(line) then
      var category := HeaderLabel(Trim(line));
      Emit(category, BodyItems(category, rest))
    else []
  }

  /** A header line followed by lines without a header is one section: it
      yields its label with the items of those lines, or nothing. */
  lemma SingleSection(header: string, body: seq<string>)
    requires IsHeaderLine(header)
    requires forall i :: 0 <= i < |body| ==> !IsHeaderLine(body[i])
    ensures var category := HeaderLabel(Trim(header));
      HeaderSections([header] + body) == Emit(category, BodyItems(category, body))
  {
    var all := [header] + body;
    assert all[0] == header && all[1..] == body;
    NoHeaderNoSections(body);
    var category := HeaderLabel(Trim(header));
    assert Emit(category, BodyItems(category, body)) + [] == Emit(category, BodyItems(category, body));
  }

  /** Two sections are two categories, even under the same label: the items
      of a repeated header are never added to the earlier category. */
  lemma SectionsNotMerged(first: string, body1: seq<string>, second: string, body2: seq<string>)
    requires IsHeaderLine(first) && IsHeaderLine(second)
    requires forall i :: 0 <= i < |body1| ==> !IsHeaderLine(body1[i])
    requires forall i :: 0 <= i < |body2| ==> !IsHeaderLine(body2[i])
    ensures var l1, l2 := HeaderLabel(Trim(first)), HeaderLabel(Trim(second));
      HeaderSections(([first] + body1) + ([second] + body2))
        == Emit(l1, BodyItems(l1, body1)) + Emit(l2, BodyItems(l2, body2))
  {
    var a, b := [first] + body1, [second] + body2;
    assert b[0] == second;
    SectionsAppend(a, b);
    SingleSection(first, body1);
    SingleSection(second, body2);
    var l1, l2 := HeaderLabel(Trim(first)), HeaderLabel(Trim(second));
    assert HeaderSections(a) == Emit(l1, BodyItems(l1, body1));
    assert HeaderSections(b) == Emit(l2, BodyItems(l2, body2));
  }

  /** The labels of the header lines, in order. */
  function HeaderLabels(lines: seq<string>): seq<string> {
    if lines == [] then []
    else if IsHeaderLine(lines[0]) then [HeaderLabel(Trim(lines[0]))] + HeaderLabels(lines[1..])
    else HeaderLabels(lines[1..])
  }

  function Labels(categories: seq<Category>): seq<string> {
    if categories == [] then [] else [categories[0].category] + Labels(categories[1..])
  }

  /** `a` is `b` with some elements left out. */
  ghost predicate IsSubsequence(a: seq<string>, b: seq<string>) {
    a == [] || (b != [] && ((a[0] == b[0] && IsSubsequence(a[1..], b[1..])) || IsSubsequence(a, b[1..])))
  }

  /** The labels of the categories appear among the header labels, in the
      order of the headers. */
  lemma {:induction false} LabelsFollowHeaders(lines: seq<string>)
    ensures IsSubsequence(Labels(HeaderSections(lines)), HeaderLabels(lines))
  {
    if lines != [] {
      LabelsFollowHeaders(lines[1..]);
      if IsHeaderLine(lines[0]) {
        var category := HeaderLabel(Trim(lines[0]));
        var e := Emit(category, BodyItems(category, lines[1..]));
        var rest := HeaderSections(lines[1..]);
        var h := HeaderLabels(lines);
        assert h[0] == category && h[1..] == HeaderLabels(lines[1..]);
        if e == [] {
          assert e + rest == rest;
        } else {
          var l := Labels(e + rest);
          assert (e + rest)[0] == e[0] && (e + rest)[1..] == rest;
          assert l[0] == category && l[1..] == Labels(rest);
        }
      }
    }
  }

  // ---------------------------------------------------------------------
  // Whole replies
  // ---------------------------------------------------------------------

  /** A blank reply has no header line, so it yields no section. */
  lemma BlankReplyNoSections(response: string)
    ensures AllWhitespace(response) ==> HeaderSections(SplitLines(response)) == []
  {
    var lines := SplitLines(response);
    if AllWhitespace(response) {
      SplitLinesBlank(response);
      forall i | 0 <= i < |lines| ensures !IsHeaderLine(lines[i]) {
        assert AllWhitespace(lines[i]);
      }
      NoHeaderNoSections(lines);
    }
  }

  /** `filter` keeps the order of the lines it keeps, and keeps repeated
      lines: filtering a concatenation filters each part. */
  lemma {:induction false} NonBlankLinesAppend(a: seq<string>, b: seq<string>)
    ensures NonBlankLines(a + b) == NonBlankLines(a) + NonBlankLines(b)
  {
    if a == [] {
      assert a + b == b;
    } else {
      var head := if Trim(a[0]) != "" then [a[0]] else [];
      assert (a + b)[0] == a[0] && (a + b)[1..] == a[1..] + b;
      NonBlankLinesAppend(a[1..], b);
      Regroup(NonBlankLines(a + b), head, NonBlankLines(a[1..] + b),
              NonBlankLines(a), NonBlankLines(a[1..]), NonBlankLines(b));
    }
  }

  /** One line is kept, untrimmed, exactly when its trim is non-empty; with
      `NonBlankLinesAppend` this fixes the result on every list of lines. */
  lemma NonBlankLinesOne(line: string)
    ensures NonBlankLines([line]) == if Trim(line) != "" then [line] else []
  {
    assert [line][1..] == [];
  }

  /** A non-blank reply has a non-blank line. */
  lemma NonBlankHasLine(response: string)
    requires !AllWhitespace(response)
    ensures NonBlankLines(SplitLines(response)) != []
  {
    var lines := SplitLines(response);
    SplitLinesBlank(response);
    var i :| 0 <= i < |lines| && !AllWhitespace(lines[i]);
    assert lines[i] in lines;
  }

  /** Every category of a reply has a non-empty label and at least one item,
      and every item is a non-empty string. */
  lemma ShoppingListWellFormed(response: string)
    ensures forall i :: 0 <= i < |ShoppingListOf(response)| ==>
      var c := ShoppingListOf(response)[i];
      c.category != "" && |c.items| > 0 && forall j :: 0 <= j < |c.items| ==> c.items[j] != ""
  {
    var lines := SplitLines(response);
    var sections := HeaderSections(lines);
    if sections == [] && Trim(response) != "" {
      NonBlankHasLine(response);
      var items := NonBlankLines(lines);
      forall j | 0 <= j < |items| ensures items[j] != "" {
        assert items[j] in items;
      }
    } else {
      HeaderSectionsWellFormed(lines);
    }
  }

  /** A non-blank reply without any header line falls back to a single
      "Items" category holding every non-blank line, untrimmed. */
  lemma FallbackWithoutHeaders(response: string)
    requires !AllWhitespace(response)
    requires forall i :: 0 <= i < |SplitLines(response)| ==> !IsHeaderLine(SplitLines(response)[i])
    ensures ShoppingListOf(response) == [Category(FallbackLabel, NonBlankLines(SplitLines(response)))]
  {
    NoHeaderNoSections(SplitLines(response));
  }
}
