# A Dafny model of the Markdown engine

The engine turns Markdown bytes into HTML in three stages. A block parser cuts the
input into blocks and hangs them in an arena of nodes linked by indices. A walk over
that tree then parses the text of each paragraph, heading and table cell as inline
content, changing the tree under the cursor, and a footnote list is built from a
queue of shared references. A renderer with state of its own (heading ids, a count of
images, open quotes) writes the result, optionally with a table of contents.

The model keeps that structure, file by file.

| files | models |
|---|---|
| `Bytes`, `Unescape`, `Esc` | byte classes, the entity decoder, the escaper |
| `Node`, `Arena`, `Walk`, `Growth` | the linked tree as a class over its own values, the cursor, and what a parser may do to a tree |
| `Markdown`, `References` | the parser state with its open insertion point, reference and footnote definitions |
| `Outline`, `BlockSpec` | the nodes a text comes to, as a value and as a function of the text |
| `BlockScan`, `Fence`, `HtmlBlock`, `BlockLeaf`, `BlockTable`, `QuoteScan`, `ListScan`, `Paragraph`, `Block` | the block parser |
| `InlineScan`, `InlineTree`, `InlineLeaf`, `LinkScan`, `LinkAim`, `Slug`, `Inline` | the inline parser |
| `GrowingWalk`, `InlinePass`, `ParsedTree`, `NoteTrace`, `Footnotes`, `Parse` | the walk that inlines while the tree grows, the footnote queue and list, the whole parse, parse-then-render |
| `Tags`, `HeadingIds`, `Shape`, `Html`, `Attributes`, `Contents`, `Smartypants` | the renderer, its ids and attribute values, the table of contents, smart punctuation |

Bytes are characters of a string. A tree value holds the nodes together with two
ghost parts, the child sequence and the depth of every node; the five links of a node
are tied to them by `Tree.Valid`. Loops, in-place link surgery and parser state are
methods of classes; each is proved against a function or relation on values, and the
properties are proved about those.

## What does not hold

These are facts about the code, each with its input and its exact condition.

- A footnote mark before an explicit target makes a link without a number, and the
  renderer looks at the first byte of its destination (src/html.rs:594-596) unless the
  flags skip the link. `^[a]()` and, after `[id]: <<>`, `^[x][id]` give it an empty one.
  The condition a caller can check is that of `Inline.Link`: a footnote mark whose
  resolved target is empty. `Parse.Parse` says that the whole tree suits the renderer if
  and only if that never happened or the flags skip all links or all unsafe ones; without
  the footnote extension it cannot happen.
- `&#1` has a digit and stays literal; `&#x;` has none and becomes U+FFFD. Apart from a
  lone decimal digit without a semicolon and a hexadecimal reference without digits but
  with one, decoding happens when the HTML Standard says so
  (`Unescape.RecognisedPerStandard`).
- `&#4294967361;` decodes to `A`. A numeral decodes as the standard says if and only if
  it is below 2^32 or wraps to one that the standard also replaces by U+FFFD
  (`Unescape.DecodesPerStandard`).
- Appending a node below one of its own descendants, or inserting a sibling before a
  node without parent or before itself, leaves links that no tree has
  (`Node.Tree.AppendIff`, `Node.Tree.InsertIff`).
- A table of contents with a level-0 heading is not well nested (`Tags.TocBalanced`).
- In a run of three delimiters the fallbacks to the shorter forms always decline,
  because they are handed a text that starts with a delimiter (`Inline.HelperTriple`).
- The loop over the footnote queue ends before the list's block-level bodies are inlined
  (src/markdown.rs:612-626). A footnote is in the list if and only if the number it shows
  was given before that (`NoteTrace.ListedIff`), so all of them are if and only if the
  closing walk queued nothing (`Footnotes.FinishNotes`). It queues nothing when no queued
  footnote has a block-level body (`NoteTrace.TraceEnd`), and something when the text of
  such a body starts with a reference to a defined footnote, as in `[^b]`
  (`LinkAim.ShortCitation`).
- The closing walk passes over the cells of a table inside a footnote: they keep their
  raw text (`NoteTrace.CellsStay`), while those of the document are inlined.
- A closing delimiter at the end of a bare URL is meant to stay when its opener is inside
  the URL, but is dropped wherever the opener is: `http://x/a(b)` loses its parenthesis
  (`InlineScan.ParenthesisLost`). The rule stated is followed if and only if the opener is
  not inside (`InlineScan.CloserRule`), and a closing quote always stays
  (`InlineScan.QuoteStays`).
- The title of a link definition that is not closed is kept although its line is not
  taken: `[a]: /x`, then `"t` (`References.UnclosedTitleIsKept`). A title lies in the lines
  taken if and only if it is closed (`References.TitleIsTakenIff`).
- Attribute values are not always free of markup: the language word of a code fence and
  the id of a heading are written as they are (`Attributes.RawLanguage`,
  `Attributes.RawHeadingId`). All values are free of it if and only if every language
  word written and every id asked for is (`Attributes.RenderedAttrs`).

## Model

| member | source | states |
|---|---|---|
| `Node.Tree.UnlinkKeeps` | src/node.rs:492-519 | unlinking a node of a sound tree leaves a sound tree in which only that node lost its parent; every payload and every other parent is as before |
| `Arena.Arena.Unlink` | src/node.rs:492-519 | the link assignments of `unlink` give exactly the tree with the node removed from its parent's child sequence |
| `Node.Tree.AppendKeeps` | src/node.rs:524-538 | linking a root at the end of another node's children keeps the tree sound when it is not above its new parent, and changes no other parent and no payload |
| `Arena.Arena.AppendChild` | src/node.rs:524-538 | the assignments of `append_child` move the child to the end of the parent's child sequence, wherever it was before |
| `Node.Tree.InsertKeeps` | src/node.rs:546-562 | splicing a root in just before a child keeps the tree sound |
| `Arena.Arena.InsertBefore` | src/node.rs:546-562 | the assignments of `insert_before` splice the sibling in immediately before the node |
| `Node.Tree.AppendIff` | src/node.rs:524-538 | after `append_child` some sound tree has these links if and only if the child was not at or above its new parent |
| `Node.Tree.InsertIff` | src/node.rs:546-562 | after `insert_before` some sound tree has these links if and only if the node has a parent, is not the sibling itself, and the sibling is not at or above that parent |
| `Walk.AdvanceConsumes` | src/node.rs:717-754 | from any cursor on the subtree, one advance consumes exactly the next visit of the recursive enter/children/leave order, for every visitor |
| `Arena.Arena.WalkTree` | src/node.rs:579-590 | driving the cursor visits exactly the recursive order, cut after the first visit that terminates |
| `Walk.EachOnce` | src/node.rs:717-754 | in that order every reached node is entered once, every container whose children are not skipped is left once, and nothing else is visited |
| `Markdown.Markdown.Climb` | src/markdown.rs:503-513 | the climbing loop stops, at the first open block that can contain the kind, changing no link and no payload |
| `Markdown.Markdown.AddExistingChild` | src/markdown.rs:503-513 | an existing node ends up last among the children of that block, all other nodes keep parent, kind and payload, and every edge still obeys `can_contain` |
| `Markdown.Markdown.AddChild` | src/markdown.rs:496-499 | a new node becomes the last child of that block, one level below it, and nothing else changes |
| `Markdown.BlockClimbs` | src/markdown.rs:503-513 | from anywhere the block parser may leave the insertion point below a document, quote or item, the next block climbs to exactly that container |
| `Markdown.ItemClimbs` | src/markdown.rs:503-513 | below an item, the next item climbs to the item's own list |
| `Markdown.NewNodesHang` | src/block.rs:1420-1534 | every node the block parser makes lies below a child its container gained, or below a table that was given up |
| `References.IsReference` | src/markdown.rs:637-742 | exactly for the texts that define something, one fresh record goes under the lower-cased id with the link, title or note text scanned, the definition's size is returned, and no other entry changes |
| `References.ScanLinkRef` | src/markdown.rs:65-147 | in data that does not end just after an opening bracket every range lies in the data, the destination is the run without its brackets, and title and end are those the rest of the text gives |
| `References.DefinitionIff` | src/markdown.rs:100-147 | a definition ends, and so exists, exactly when a line end follows the destination or a title that is closed on its line |
| `References.TitleIsTakenIff` | src/markdown.rs:120-147 | the title kept lies in the lines taken exactly when it is closed |
| `References.UnclosedTitleIsKept` | src/markdown.rs:120-147 | `[a]: /x`, then `"t`, keeps the title and ends before it |
| `References.EmptyDefinition` | src/markdown.rs:65-147 | `[id]: <<>` has the destination run `<>`, which is stripped to nothing |
| `References.ScanFootnote` | src/markdown.rs:749-814 | the loop collects the lines, the end and the block flag that the line-by-line definition gives |
| `References.NoteTerminated` | src/markdown.rs:749-814 | in terminated data that text is empty or ends in a newline, so it can be parsed as blocks again |
| `BlockSpec.DispatcherProtectsParagraph` | src/block.rs:1420-1534 | once every earlier test of the dispatcher has declined, no line test of the paragraph parser can stop it at its first line |
| `BlockSpec.LeafTakes` | src/block.rs:1420-1534 | a leaf construct lies in the data, and there is none exactly when every leaf test declines |
| `BlockSpec.RestTakes` | src/block.rs:1420-1534 | what is left to lists and paragraphs then takes at least one byte, so the dispatcher never stands still |
| `Block.Construct` | src/block.rs:1420-1534 | the construct that starts a text takes as many bytes as the text says, and its nodes, with kind, payload and all below them, become the last children of the container; nesting is restored and the next construct climbs back to the container |
| `Block.Block` | src/block.rs:1420-1534 | the block loop terminates, with its mutual recursion, on every terminated input; the container gains exactly the nodes the text comes to; none goes deeper than two levels per unit of remaining nesting plus two; outside the container nothing changes |
| `Block.Quote` | src/block.rs:1540-1579 | a quote takes exactly its lines, at least one byte, and becomes one new last child that holds what their unquoted text comes to |
| `Block.List` | src/block.rs:1585-1611 | a list takes the items up to the one that ends it and becomes one new last child holding them in order, tight unless one of them holds a block |
| `Block.ListItem` | src/block.rs:1623-1824 | an item takes the lines that belong to it and holds their unindented text: as blocks when it holds one, otherwise as a paragraph and the nested list |
| `Paragraph.Paragraph` | src/block.rs:1830-1961 | a paragraph ends at the first line that stops it, and the text before becomes a paragraph, or a paragraph and the heading underlined there; it takes nothing only when something else starts at its first line |
| `BlockLeaf.RenderParagraph` | src/block.rs:1390-1410 | on text with a byte other than a space the unguarded scans stay in range and the trimmed text becomes a paragraph |
| `BlockScan.IsHrule` | src/block.rs:95-121 | given a byte after the indent, no index is out of range, and the answer is that of the line's definition |
| `Fence.SplitIsUnique` | src/block.rs:452-482 | a text written as info, newline, body has no other split at a first newline when the info holds none |
| `BlockLeaf.FinalizeCodeBlock` | src/block.rs:452-482 | splitting the staged content recovers the info string, which is unescaped, and the body; the split never fails |
| `BlockLeaf.FencedCodeBlock` | src/block.rs:826-867 | peeking and rendering report the same size; peeking changes nothing; rendering adds one code block holding exactly the info and the bytes between the fence lines |
| `BlockLeaf.TitleBreaks` | src/block.rs:939-971 | on terminated input the run of title lines always breaks, so a title block takes at least its first line |
| `BlockTable.TableRow` | src/block.rs:1025-1079 | a row gets exactly one cell per column with the column's alignment, padded or cut, each holding the text between its bars |
| `BlockTable.Table` | src/block.rs:1210-1245 | a table that succeeds is one new last child with a head of one row and a body whose rows have the header's columns and alignments and hold the texts between their bars; one that fails leaves every old link as it was |
| `Inline.Inline` | src/inline.rs:599-638 | terminates on every input, restores nesting and the link flag, gains children only at the node, and lays out text runs, handled ranges and a last run less one newline that make up the input |
| `Inline.PiecesCover` | src/inline.rs:599-638 | text runs and handled ranges put together are the input up to where they end, although an escape at the end claims a byte too many |
| `Inline.Handle` | src/inline.rs:552-574 | a handler never claims more than the bytes left, save a final backslash, and what it takes without leaving a node shows nothing |
| `Inline.Emphasis` | src/inline.rs:644-684 | the length of the delimiter run fixes the node kinds, and the node holds the inlined bytes between the delimiters |
| `Inline.HelperTriple` | src/inline.rs:1457-1502 | only a closing run of three gives strong text around emphasis; the shorter fallbacks never succeed |
| `Inline.Link` | src/inline.rs:817-1140 | the link made for a bracket goes nowhere exactly when the bracket is a footnote mark with an empty resolved target; a mark with a target always makes an unnumbered link to it |
| `Inline.Finish` | src/inline.rs:1088-1139 | an ordinary link or image is made exactly when it has a destination and something to show, and holds the bracket's text |
| `LinkAim.EmptyTarget` | src/inline.rs:897-976 | `[a]()` resolves to the empty destination |
| `LinkAim.ReferenceTarget` | src/inline.rs:977-1012 | `[x][id]` resolves to the link of the definition of `id`, whatever it is |
| `Inline.MarkWithEmptyParentheses` | src/inline.rs:1126-1136 | `^[a]()` leaves a link node without number and destination |
| `Inline.MarkWithEmptyReference` | src/inline.rs:1126-1136 | `^[x][id]` does the same when `id` is defined with an empty link |
| `Inline.QueueNote` | src/inline.rs:1029-1082 | a footnote reference gets the next number, writes it and its new item through the shared handle, and is queued |
| `InlineTree.NotesGrow` | src/inline.rs:1029-1082 | after that every queue entry that holds the handle shows the new number and item, all others what they showed |
| `ParsedTree.NumbersAreExact` | src/inline.rs:1029-1082 | in a parsed tree the numbered links are exactly those of the queue, the k-th with number k |
| `InlineScan.LinkEnd` | src/inline.rs:1281-1381 | the end of a bare URL lies in the data, past its scheme and the byte that makes it safe, and is that of the run less one trailing mark, semicolon or matched closer each |
| `InlineScan.CloserRule` | src/inline.rs:1331-1370 | the closer at the end is kept or dropped as the documented rule says exactly when its opener is not inside the URL |
| `InlineScan.ParenthesisLost` | src/inline.rs:1331-1370 | `http://x/a(b)` loses its parenthesis |
| `InlineScan.QuoteStays` | src/inline.rs:1331-1370 | a quote at the end is never dropped, as it opens nothing |
| `InlineScan.AnchorReachesBeyond` | src/inline.rs:465-511 | an anchor that starts at or before the current letter ends after it, so skipping it cannot go backwards |
| `InlineScan.RewindIsZero` | src/inline.rs:1281-1381 | the letters before a URL never start a safe scheme themselves, so rewinding finds none to take |
| `InlineLeaf.CodeSpan` | src/inline.rs:690-731 | a code span exists exactly when as many backticks stand somewhere behind, ends at the first place they do, and holds the text between, trimmed of spaces |
| `GrowingWalk.TargetsKept` | src/markdown.rs:548-558 | children added below the node being entered leave the later targets of the walk as they were |
| `GrowingWalk.TargetsAreReached` | src/markdown.rs:548-558 | the targets of the walk are exactly the paragraphs, headings and cells it reaches |
| `InlinePass.InlineWalk` | src/markdown.rs:548-558 | the walk ends although the tree grows under it; every target is inlined exactly once, with its own text, and loses it; no other old node changes |
| `NoteTrace.LatestIsSet` | src/markdown.rs:584-608 | the children of the list after any attachments are exactly the items attached, each once |
| `NoteTrace.LatestIsOrdered` | src/markdown.rs:584-608 | they are ordered by their latest attachment |
| `Footnotes.NoteStep` | src/markdown.rs:584-608 | one queue entry moves the item its handle now shows to the end of the list, fills in its data, and parses its text below it, as blocks or inline as the record says |
| `NoteTrace.TurnTaken` | src/markdown.rs:584-594 | the item an entry attaches is the footnote of a reference through the entry's own handle that was made no earlier than the entry |
| `Footnotes.NoteSteps` | src/markdown.rs:584-608 | over any number of entries, some queued meanwhile, entry k takes the k-th tree to the next by such a step with its own handle's text, and attaches the item of a reference through that handle; all entries were turned unless the limit was met |
| `NoteTrace.TraceEnd` | src/markdown.rs:584-608 | these steps leave the document as it was, and without block-level bodies they leave nothing for the closing walk |
| `Footnotes.FinishNotes` | src/markdown.rs:610-626 | the closing walk inlines each paragraph and heading below the list once, keeps the list's children, and leaves every footnote listed exactly when it queued nothing; it queues something when a body starts with a reference to a defined footnote |
| `NoteTrace.ListedIff` | src/markdown.rs:584-626 | the item an entry shows in the end is in the list exactly when the number it shows was given before the closing walk |
| `NoteTrace.AiryHasNoBodies` | src/markdown.rs:610-626 | where only inline nodes hang below the footnote items the closing walk has nothing to inline |
| `NoteTrace.CellsStay` | src/markdown.rs:612-626 | table cells keep payload and children through the closing walk |
| `LinkAim.ShortCitation` | src/inline.rs:817-1082 | `[^b]` is a reference to the footnote `b` once that is defined |
| `ParsedTree.SoundIsShaped` | src/html.rs:935-1321 | a parsed tree always meets the renderer's demands on shape and headings |
| `ParsedTree.SoundIsRenderable` | src/html.rs:983-1010 | it meets all of them exactly when no link goes nowhere or the flags skip all links or all unsafe ones |
| `Parse.ParseBlocks` | src/markdown.rs:525-546 | the block phase of any terminated input gives the document exactly the nodes the input comes to, at most 34 levels deep; nothing is detached except tables given up |
| `Parse.Parse` | src/markdown.rs:525-627 | the whole parse: in the final tree every reached paragraph, heading and cell of the document holds its own text inlined once, with footnotes or without; the footnote queue was worked through entry by entry and its list is the document's last child; the tree suits the renderer if and only if no footnote mark had an empty target or the flags skip such links |
| `Parse.RenderTree` | src/markdown.rs:189-202 | an unused renderer writes the markup of the tree's recursive order, well nested and clean, with ids granted in request order, so pairwise distinct |
| `Parse.Convert` | src/markdown.rs:189-202 | parsing then rendering any terminated input gives such a rendering of the tree that this input parses to: for every flag set without footnotes, with them when the flags skip all links or all unsafe ones |
| `Parse.ConvertWithToc` | src/markdown.rs:189-202 | with a table of contents, the table lists the headings of that tree, both parts are well nested, and the body, whose heading ids are those the table links to, is the markup of the same tree renumbered |
| `Shape.TreeBalanced` | src/html.rs:935-1321 | the markup of every subtree the renderer can take is well nested over any stack it may be written on, for every flag set |
| `Html.HtmlRenderer.Render` | src/html.rs:935-1321 | driven by the cursor the renderer writes exactly the markup of the recursive order, well nested, with ids granted in request order, text free of markup, and the count of suppressed tags back at zero |
| `Attributes.RenderedAttrs` | src/html.rs:935-1321 | every attribute value of a rendering is free of `<`, `>` and `"` exactly when every code language written and every heading id asked for is |
| `Attributes.RawLanguage` | src/html.rs:667-681 | the language word of `a"b c` is not |
| `Attributes.RawHeadingId` | src/html.rs:1122-1131 | the id of the heading `# x{#"}` is not |
| `HeadingIds.SearchShrinks` | src/html.rs:117-131 | each retry of the id search leaves fewer used ids at least as long as the candidate, so it ends |
| `HeadingIds.UniqueIdIsNew` | src/html.rs:117-131 | the id given out is new, extends the request, is the request itself exactly when that was free, and is the one key added |
| `HeadingIds.GrantDistinct` | src/html.rs:117-131 | over any sequence of requests the ids are pairwise distinct and the table's keys are those given out |
| `HeadingIds.RepeatedHeading` | src/html.rs:117-131 | n equal requests from an empty table get the id, then the id with `-1` to `-(n-1)` |
| `Html.HtmlRenderer.EnsureUniqueHeadingId` | src/html.rs:117-131 | the search loop computes that id and table |
| `Tags.TocBalanced` | src/html.rs:864-921 | the list markup over any sequence of levels is well nested if and only if every level is at least 1 |
| `Tags.AnchorDepth` | src/html.rs:864-921 | each entry's anchor stands in as many open lists as its level |
| `Contents.WriteToc` | src/html.rs:864-921 | the table lists every heading met outside the title, with level and rendered text, renumbers their ids, and leaves the renderer's ids and image count as they were |
| `Contents.RenderWithToc` | src/html.rs:864-921 | the body's heading ids are `toc_0` to `toc_(n-1)`, each once and in order, one for each link of the table |
| `Esc.EscapeEntities` | src/esc.rs:111-138 | for every entity table of the stated shape the two-pointer loop never slices backwards and equals the recursive escaper |
| `Esc.EscapeIsRawFree` | src/esc.rs:111-138 | no `<`, `>` or `"` survives, in either mode |
| `Esc.FixedPoints` | src/esc.rs:111-138 | the texts the escaper leaves alone are exactly those whose every metacharacter opens a known entity |
| `Esc.EscapeIdempotent` | src/esc.rs:51-53 | escaping escaped text again changes nothing |
| `Esc.RoundTrip` | src/esc.rs:67-69 | decoding what the full escaper writes gives back the input, for every byte string |
| `Esc.EscLinkOfEscaped` | src/esc.rs:92-95 | escaping a link that was fully escaped before is the same as escaping the original |
| `Unescape.UnescapeString` | src/unescape.rs:194-222 | the loop makes progress on every reference and computes the left-to-right expansion |
| `Unescape.UnescapeShrinks` | src/unescape.rs:194-222 | the output is never longer than the input |
| `Unescape.ReadNumber` | src/unescape.rs:84-115 | the wrapped accumulator equals the numeral modulo 2^32 as a signed register |
| `Unescape.DecodesPerStandard` | src/unescape.rs:123-132 | a numeral decodes as the WHATWG HTML Standard, section 13.2.5.80, says if and only if it is below 2^32 or wraps to one that is replaced as well |
| `Unescape.RecognisedPerStandard` | src/unescape.rs:77-121 | decoding happens exactly when a digit is there, except for a lone decimal digit without semicolon and hexadecimal references with a semicolon only |
| `Unescape.LoneDigitStays` | src/unescape.rs:77-81 | `&#1` stays literal |
| `Unescape.NoHexDigitDecodes` | src/unescape.rs:92-132 | `&#x;` becomes U+FFFD |
| `Unescape.LongNumeralWraps` | src/unescape.rs:92-132 | `&#4294967361;` becomes `A` |
| `Smartypants.SpRenderer.Process` | src/smartypants.rs:241-262 | the loop writes what the handlers, each as the function of its bytes and flags, say at every position; the input is consumed as consecutive tokens without overrun, each replaced by something it stands for, and the quote state is that of the last quote written |
| `Smartypants.StateDecides` | src/smartypants.rs:108-182 | the open-quote flag matters exactly between two neighbours of the same class, and then toggles |
| `Smartypants.ProcessedIsTidy` | src/smartypants.rs:503-547 | over escaped text, `<` and `>` reach the output only as the tags of a fraction around digits, and `"` never |

## Left out

- The definition-list extension: with it on, the block loop does not terminate (README bug 5 of the repository), so the block phase requires it off.
- Inputs that end without a newline: a link definition that ends just after `<` makes the scanner read past the end, so parsing starts from data that is empty or ends in a newline; the buffers of quotes, items and footnotes keep that shape.
- Footnotes.NoteSteps: stops after a number of entries the caller gives, because footnotes that refer to each other keep the queue growing for ever.
- Tables of entities, of Unicode classes and of case mappings are parameters; for entities their shape is a precondition.
- The reference-override callback, the document header and footer, the fixed prefix and suffix of heading ids, and blank lines between tags.
- The tag stripping of `out` under a suppressed image: the model proves that no tag is written while the count is positive, so it never applies.
- Html.HtmlRenderer.Render: text nodes, code, HTML literals and attribute values are tokens; that a literal HTML block is itself well formed is not claimed.
- Inline.FindEmphChar: says that the delimiter found is one and lies in the data, not which of several candidates behind code spans and links is chosen.
- The handlers are free-standing methods over the parser object, dispatched on the byte, instead of a table of function pointers.
- Command-line tools, the C interface, fuzzing and benchmarks.
