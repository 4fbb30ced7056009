# The verification scripts, modelled

Experimently's documentation and test gates are Python scripts: a Markdown splitter and a claims
registry with a ledger and a generator (`scripts/doc_claims.py`), a runner that executes the
examples of the documentation in shards (`scripts/doc_examples.py`), a check that sharded test runs
ran every test once (`scripts/check_test_shards.py`), a WebM reader and a rolling issue per failing
guide (`scripts/docs_journeys_report.py`), a dependency closure
(`scripts/generate_third_party_licenses.py`), a guide extractor (`scripts/guide_blocks.py`) and an
in-order excerpt matcher (`scripts/removed_units.py`). This project models their logic and proves
what they are relied on for. To verify everything, run `dafny verify dfyconfig.toml`.

Loops are methods with their loops, each proved to compute a specification function or a stated
property; the properties are lemmas about those functions. What the source updates in place is a
class: `Blocks.Block` and `Blocks.Builder`, `AuditPlan.Plan`, `RollingIssue.Tracker`. Text is
`seq<char>`; a Python dict that is iterated is a map with the sequence of its keys in insertion
order; a `Counter` is a multiset.

| files | what they model |
|---|---|
| `FenceSyntax`, `Fences`, `FenceContents`, `VisibleLines`, `WholePage` | two fence scanners and the comment remover, their agreement, and what a whole page shows |
| `LineSyntax`, `LineShapes`, `Blocks`, `BlockOrder`, `LineFates` | the shapes of lines, the block builder, and what becomes of every line |
| `Words`, `UnitLines`, `Cutting`, `FenceUnits` | a block's one cut into units, their line spans, and that none is from inside a fence |
| `GuideBlocks`, `GuideReports` | the guide extractor, and each problem it reports |
| `Registry`, `RegistryFacts`, `RegistryReports`, `Ledger`, `LedgerText`, `Gate`, `GateReports` | the registry check, the ledger and its rewriting, the whole check, and each problem they report |
| `AuditPlan`, `Placement`, `AuditFacts`, `AuditCounts`, `AuditEntries`, `AuditNames`, `AuditPrinted`, `Generated` | the generator that accounts for every audit row, what it writes for every unit, and the check of what it wrote |
| `Shards`, `PlanFacts`, `Runner`, `Summary`, `SummaryFacts`, `SummaryReports`, `Pipeline` | planner, runner, reports and summary: each page exactly once |
| `Stream`, `StreamMarks`, `StreamFacts`, `StreamReading`, `StreamCuts`, `Judge`, `JudgeReports` | the sentinel stream, its reader on any lines, any prefix of it, and the verdict |
| `Matching` | greedy in-order matching and its completeness |
| `SuiteCheck`, `SuiteReports` | the checker of sharded test reports, and each problem it reports |
| `Ebml` | variable-length integers and nested elements (sections 4 to 6 of RFC 8794) |
| `RollingIssue`, `RollingFacts`, `RollingListing`, `RollingPosts` | the issue state machine over all sequences of nights, also among other people's issues |
| `Closure` | the worklist over a cyclic dependency graph |
| `Text`, `Sequences`, `Ordering`, `Numbers`, `Wrappers` | strings, sequences, sorting, numerals, results |

Where the code and its documentation or intent part, the model follows the code:

* A unit that a row holds back gets an entry all the same when other rows go to it and entitle it
  to one, since `scripts/doc_claims.py:3381` comes before 3383. Of the units an R or X row maps to
  and of the units on the line of a row that picks none, the docstring (168-173) says they get
  none. `AuditEntries.HeldUnitGetsAnEntry` says exactly when they do; `XAndTOnOneUnit` and
  `SeveralAndTOnOneUnit` give one input for each, `Placement.XAndTOnAPage` one as a page and rows.
* Rows are dropped where the docstring (3296-3299) has whatever does not map printed.
  `AuditPrinted.RowsArePrinted` says of every row whether it is printed. Three classes never are:
  an R or X row that is gone, a covered row outside the prose, and a row whose unit changed since
  the audit (`ChangedUnitIsDropped`). A row left to hand is not printed when its units have nothing
  to say of it, as with a `by` blank between its semicolons (`BlankCiteIsDropped`); a mapped row is
  printed only when a unit leaves it to hand or refuses one of its targets.
* The generator writes a count above 999 that the registry check then refuses:
  `AuditEntries.PlanMeetsTheRegistryCheck`.
* `shard_label` writes counts above 999 that `parse_shard` does not read, so a plan of that many
  shards is never accepted: `Pipeline.PipelineIsAccepted`.
* `run` can end without failing and still record `stopped`: `Runner.StoppedWithoutFailing` says
  exactly when. The summary refuses such a report: `SummaryFacts.StoppedIsRefused`.
* The ten scheduled runs listed for the history hold the run itself, so nine earlier ones are read:
  `RollingFacts.GapDecides`.
* The closure reads a distribution once, with the extras of the requirement popped first, so extras
  can be lost: `Closure.ExtrasCanBeLost`. `Closure.ClosureIsExact` gives the condition under which
  every pop order finds exactly the reachable set; it holds when nothing reached asks for an extra.
* An EBML element is bounded by the file and not by its parent (`Ebml.ChildMayLeaveItsParent`);
  `Ebml.WalkStaysInside` says exactly when no element leaves it.
* `summarise` asks that a page is in one report, not that it ran in the shard the plan dealt it to:
  `Pipeline.ExchangeIsAccepted`. `Pipeline.RanAsDealt` says when the shards are the dealt ones.

Parameters stand for what the scripts ask of the outside: the regular expressions of the splitter
and `normalise` (`LineSyntax.Syntax`, `UnitLines.Rules`), `target_problem` (`bad`), the resolver of
audit targets (`resolve`), the normalised fragments of an excerpt (`Placement.Where`), SHA-256
(`hash`), the clock, the pages' own outcomes and the Docker volumes (`Runner.World`), installed
distributions and marker evaluation (`Closure.Env`), the files' contents.

## Model

| member | source | states |
|---|---|---|
| Fences.ReadBody | scripts/doc_examples.py:387-400 | the closer of a fence is the first line that closes its marker; each content line loses the opener's indentation where it has that much |
| Fences.ReadTrailing | scripts/doc_examples.py:402-405 | exactly the run of expectation lines straight after a fence |
| Fences.ParseFences | scripts/doc_examples.py:375-408 | the index-jumping parser returns the fences, or the first fence that never closes with its line and marker |
| Fences.FencesAreThePages | scripts/doc_examples.py:375-408 | soundness: every returned fence opens where it says, closes at the first closing line, and carries that marker, info, content and trailing expectations |
| Fences.FencesAreApart | scripts/doc_examples.py:375-408 | the fences stand in page order and do not overlap |
| Fences.OpenersAreCovered | scripts/doc_examples.py:380-386 | completeness: every line that opens a fence lies inside a returned one |
| Fences.CloserIsFirst | scripts/doc_examples.py:391-394 | no line above the closer closes the marker |
| FenceContents.ContentIs | scripts/doc_examples.py:375-408 | each fence by its lines: every content line is the page's line without the opener's indentation where that is white space, and the trailing lines are every line that begins with the expectation mark straight after the closer, up to the first that does not |
| LineShapes.OpensIs | scripts/doc_claims.py:245 | the lines that open a fence are exactly blanks, three or more backticks or tildes, and an info string that does not go on with them and, after backticks, holds none |
| LineShapes.ClosesIs | scripts/doc_claims.py:316-320 | the lines that close one are exactly its marker's character at least as often as in the marker, with white space at most around it |
| VisibleLines.StripComments | scripts/doc_claims.py:284-297 | one line without its comments, and whether one is still open: what deleting comments from the whole line gives |
| VisibleLines.ReadLine | scripts/doc_claims.py:314-337 | one turn of the splitter's loop moves `fence`, `in_comment` and the shown text as the line automaton does |
| VisibleLines.ReadFrontMatter | scripts/doc_claims.py:304-309 | how many lines are front matter: those up to the least of the lines 1 to 199 (from 0) that strips to `---` or `...`, when line 0 strips to `---` and there is one; else none |
| VisibleLines.FrontMatterIs | scripts/doc_claims.py:304-309 | of any count: it is the front matter's exactly when the rules say so, so there is one answer |
| VisibleLines.ComputeVisibleLines | scripts/doc_claims.py:300-342 | every line of the page, blank where front matter, a fence or a comment stood, or the refusal of an unclosed fence or comment |
| VisibleLines.UncommentLine | scripts/doc_claims.py:284-297 | across a line break only whether a comment is open carries over |
| VisibleLines.StreamingRefinesOneShot | scripts/doc_claims.py:284-342 | without front matter and fence openers: the joined lines are the whole text with every comment deleted and its newlines kept; refused exactly when the last comment is open; no line is lost |
| VisibleLines.ScanInsideFence | scripts/doc_claims.py:316-320 | a fence hides its lines up to and with its closer |
| WholePage.ScanInsideComment | scripts/doc_claims.py:321-326 | a comment left open hides every line up to the first that holds `-->`, fence openers among them; that line shows what follows the mark, less the comments in it, and the scan goes on from there |
| WholePage.LeftOpenAt | scripts/doc_claims.py:335-341 | the line named for a comment that never closes holds `<!--`, and no line below it holds `-->` |
| WholePage.VisibleIs | scripts/doc_claims.py:300-342 | every page: its front matter is blank; below, with the fences that open outside comments emptied, the shown lines are what deleting every comment from the whole leaves; it is refused for the fence that never closes, or else for a comment that never does |
| WholePage.BreakAcross | scripts/doc_claims.py:302 | a line break of whichever kind between two texts becomes one line feed between theirs |
| VisibleLines.ScannersEndAlike | scripts/doc_claims.py:300-342 | the splitter ends inside a fence exactly when the parser refuses one, with the same line and marker |
| VisibleLines.ScannersAgree | scripts/doc_claims.py:300-342 | without carriage return, front matter or comment openers outside fences: a line keeps its text exactly when it lies outside every fence `parse_fences` returns, and both raise for the same unclosed fence |
| GuideBlocks.ReadFence | scripts/guide_blocks.py:90-137 | one fence of a guide page: its block, its problems, and the line after it |
| GuideBlocks.ReadPlain | scripts/guide_blocks.py:138-151 | one line outside a fence: the marker it is, or the problem it is |
| GuideReports.MarkerIs | scripts/guide_blocks.py:43 | a line of blanks, `<!-- chart-kind: `, a name, ` -->` and blanks is the marker of that name |
| GuideReports.MarkerLeaves | scripts/guide_blocks.py:43 | and no other line is a marker |
| GuideReports.GuideOpenerOpens | scripts/guide_blocks.py:48 | a line of blanks, three or more backticks or tildes, and an info string opens a fence, with the info string less the blanks around it |
| GuideReports.GuideOpenerLeaves | scripts/guide_blocks.py:48 | and no other line does |
| GuideReports.LanguageIs | scripts/guide_blocks.py:93 | the language is the info string's first word: only white space stands before it, and none in it |
| GuideReports.BodyIs | scripts/guide_blocks.py:94-103 | a block's body is every line down to the closer, less the opener's own indentation where it has that, each with a line feed |
| GuideBlocks.ReportTwice | scripts/guide_blocks.py:157-161 | every name used by more than one block is reported |
| GuideBlocks.Extract | scripts/guide_blocks.py:76-162 | the marked blocks of a page and every problem, with `pending` set and cleared as the code does |
| GuideReports.ReportedIs | scripts/guide_blocks.py:76-162 | each problem, with its line and name, is reported exactly when the page has it: an open fence, one with no language, a tagged one or another shell's, a bash fence without a marker, a marker not above one, a malformed marker, a name marked twice |
| GuideBlocks.ItemsTileThePage | scripts/guide_blocks.py:87-151 | the fences and the lines between them are the page, in order, with no line left out |
| GuideBlocks.NothingReported | scripts/guide_blocks.py:76-162 | nothing is reported exactly when every fence closes and names a language that is not refused, every marker stands directly above a bash fence and every bash fence below one, no other line mentions a marker, and names are distinct |
| GuideBlocks.BlocksAreTheBashFences | scripts/guide_blocks.py:76-162 | then the blocks are precisely the page's bash fences, in page order, each with the name on the line directly above it and its own body |
| Blocks.Builder.constructor | scripts/doc_claims.py:399-402 | the splitter starts with no block, none open and outside a table |
| Blocks.Builder.End | scripts/doc_claims.py:407-409 | nothing is open afterwards and the blocks stay |
| Blocks.Builder.AddSingle | scripts/doc_claims.py:411-418 | a block of one line that never grows is appended and nothing is open |
| Blocks.Builder.Open | scripts/doc_claims.py:461-474 | a new block is appended, and it is the open one |
| Blocks.Builder.Extend | scripts/doc_claims.py:470-472 | only the open block gains a part |
| Blocks.Builder.TakeLast | scripts/doc_claims.py:437-440 | the open paragraph gives up its last line and leaves the list when that was its only one; it is the last block then, so the assertion at 439 cannot fail |
| Blocks.Builder.Underline | scripts/doc_claims.py:431-450 | the setext heading takes its line over from the paragraph |
| Blocks.Builder.ReadLine | scripts/doc_claims.py:403-474 | one turn of the loop on the mutable `blocks`, `current` and `in_table` is the pure step; the open block is the last one and is never open inside a table |
| Blocks.Builder.ReadText | scripts/doc_claims.py:419-474 | its branches for a line that is not blank, a table's next row, a heading or an opener |
| Blocks.BuildBlocks | scripts/doc_claims.py:398-475 | the loop builds the blocks of the page |
| BlockOrder.StepFeeds | scripts/doc_claims.py:403-474 | a turn feeds its line to a block, or the line is blank, an opener without a title, a reference definition, an underline, a break or a table separator |
| BlockOrder.LinesInOrder | scripts/doc_claims.py:398-475 | part line numbers increase strictly across all blocks, so no source line feeds two |
| BlockOrder.BlocksOfAPage | scripts/doc_claims.py:398-475 | for every page: no block is empty; each part is the text of the line it is numbered with, at the block's quote depth; lines increase strictly; every line that feeds none may be dropped |
| FenceUnits.BlankFeedsNone | scripts/doc_claims.py:407-409 | a line that is blank, or blank inside its blockquotes, feeds no block |
| FenceUnits.BlocksAreRuns | scripts/doc_claims.py:398-475 | on every page each block is a run of lines that follow each other without a gap, none of them blank |
| LineFates.FateOfLine | scripts/doc_claims.py:398-475 | what becomes of every line: a heading, an opener's title, a table row or a list or HTML start begins a block; a plain line goes on with the joinable block of the line above at its depth, and else begins a paragraph; a paragraph's last line above its underline is a setext heading; every other line feeds none |
| LineFates.OnePieceALine | scripts/doc_claims.py:398-475 | no line is in two parts of blocks |
| LineFates.PieceIsRight | scripts/doc_claims.py:398-475 | conversely, every part: a later one is the whole body of a plain line, never of a list marker or HTML start, and follows on the line above; a first one is what its kind says, a list block's the text after the marker |
| LineShapes.QuotedIs | scripts/doc_claims.py:353-356 | of a stripped line, what stands before the body is `>` and blanks only, and the depth is the number of `>` |
| LineShapes.ItemIs | scripts/doc_claims.py:246 | a list item's text is what follows its bullet, or its one to nine digits with a dot or parenthesis, and the blanks after |
| LineShapes.ItemLeaves | scripts/doc_claims.py:246 | and no other body is a list item |
| LineShapes.UnderlineIs | scripts/doc_claims.py:388-390 | equals signs alone or hyphens alone, with blanks after them, are an underline |
| LineShapes.BreakIs | scripts/doc_claims.py:393-395 | one of `*`, `-` and `_` at least three times and nothing else but blanks is a break, and nothing else is |
| LineShapes.HashIs | scripts/doc_claims.py:415 | a heading line: `#` begins its body, and the line itself or a blockquote stands before it |
| LineShapes.PipeIs | scripts/doc_claims.py:252 | a pipe counts unless a backslash stands straight before it |
| LineShapes.HtmlIs | scripts/doc_claims.py:259 | HTML starts with `<` and a letter, a slash, an exclamation or a question mark |
| Words.SentencesKeepWords | scripts/doc_claims.py:498 | splitting after sentence ends loses and reorders no word |
| Cutting.SentencesAre | scripts/doc_claims.py:498 | pieces are the sentences of a text exactly when they give it back joined by single spaces, none holds a space straight after `.`, `!` or `?`, and all but the last end in one of these |
| Words.WordsOfJoined | scripts/doc_claims.py:506-508 | splitting a single-space-joined text gives the joined words back |
| UnitLines.FindOwners | scripts/doc_claims.py:499-503 | the line of each word of a joined block |
| UnitLines.CutBlock | scripts/doc_claims.py:492-504 | the pieces of a block and whether the words of the normalised block are counted like those of its lines |
| UnitLines.FindBlockSpans | scripts/doc_claims.py:505-515 | the spans of one block; every index into `owners` is in range |
| UnitLines.FindSpans | scripts/doc_claims.py:483-516 | all units of a page with their first and last line |
| UnitLines.PiecesKeepWords | scripts/doc_claims.py:496-508 | the block's text loses and reorders no word when it is cut |
| UnitLines.BlockSpansInOrder | scripts/doc_claims.py:483-516 | first line at most last line, inside the block's own lines; aligned sentences never start above where the one before ends |
| UnitLines.PageSpansInOrder | scripts/doc_claims.py:483-516 | on every page the units stand in page order on lines of the page |
| UnitLines.SpansAreExact | scripts/doc_claims.py:483-516 | when normalising keeps the words, a sentence's words are those from the first on its first line to the last on its last line |
| Cutting.UnitsAreThePieces | scripts/doc_claims.py:505-515 | the units of a block are exactly its pieces that have a letter or digit, in order, at the block's line; where words do not align each spans the first part's line to the last part's |
| Cutting.UnitsAreTheCut | scripts/doc_claims.py:496-515 | for a joined block these are the pieces of any one cut of its text after sentences |
| Cutting.AlignedUnits | scripts/doc_claims.py:505-514 | where words align, a unit spans from the line of its first word to that of its last, by how many words the pieces before it have |
| Cutting.OwnersAre | scripts/doc_claims.py:499-503 | as many words are owned by a line as normalising that line leaves |
| Cutting.PlainUnitsAreExact | scripts/doc_claims.py:483-516 | of a paragraph or list item whose normalising keeps words, a unit's words are exactly the page's words from its first to its last |
| FenceUnits.UnitsHaveText | scripts/doc_claims.py:483-516 | every line from a unit's first to its last is a line of the page with text on it |
| FenceUnits.UnitsAreOutsideFences | scripts/doc_claims.py:300-516 | from the page to its units: no line of a fence that `parse_fences` returns lies between the first and the last line of a unit (without carriage return, front matter or comment openers outside fences) |
| Registry.CheckEntries | scripts/doc_claims.py:2640-2678 | the entries in file order: which are registered with which count, which are well formed, and every problem |
| Registry.CheckTargets | scripts/doc_claims.py:2665-2671 | every target of an entry that does not hold, in order |
| Registry.CountUnits | scripts/doc_claims.py:2680-2683 | how often each text is on the page and where first, in order of first appearance |
| Registry.CheckTexts | scripts/doc_claims.py:2684-2691 | a page text that is unregistered, or registered another number of times, is reported once, at its first line |
| Registry.CheckNames | scripts/doc_claims.py:2692-2695 | a registered text that is not on the page is reported |
| Registry.CheckRegistry | scripts/doc_claims.py:2640-2696 | the entries of a registry against the units of its page |
| Registry.CheckFile | scripts/doc_claims.py:2607-2696 | a registry file against its document: what ends the check early (it does not parse, no extractor, no page, a page that cannot be split, `unit` not a list), the keys at its top, then its entries |
| RegistryFacts.EntriesAreExact | scripts/doc_claims.py:2640-2678 | no problem with the entries exactly when each is acceptable by itself and none is listed twice; then all are returned |
| RegistryFacts.RegistryIsExact | scripts/doc_claims.py:2640-2696 | no problem exactly when, besides, the entries with their counts are the page's units as multisets |
| RegistryFacts.FileIsExact | scripts/doc_claims.py:2607-2696 | a whole file has no problem exactly when it parses with no unknown key, names its own document, that document is there and splits, and its units are, acceptable and once each, the page's units as multisets |
| RegistryReports.EntriesRead | scripts/doc_claims.py:2640-2678 | which texts are registered, with which count, and of each problem of the entries whether it is reported, each by what the entry is |
| RegistryReports.ReportedIs | scripts/doc_claims.py:2640-2696 | each problem is reported exactly when the entries and the page have it: which one, of which entry, text and line |
| RegistryReports.FileReportedIs | scripts/doc_claims.py:2607-2696 | the same of a whole file |
| Ledger.ReadLedger | scripts/doc_claims.py:2456-2482 | the lines read, the malformed ones, and whether the data is not `sorted(set(data))` |
| Ledger.CheckLedger | scripts/doc_claims.py:2573-2588 | nothing is wrong exactly when the data lines are the sorted duplicate-free set of wanted lines; a missing file reads as an empty one; which lines are stray, missing and malformed, and whether the file is out of order, each by the lines |
| Ledger.ParseWritten | scripts/doc_claims.py:2465-2481 | a written line is read back as the same kind, document and hash |
| Ledger.WrittenParse | scripts/doc_claims.py:2465-2481 | a line that is read is the one its fields are written as |
| LedgerText.RewriteLedger | scripts/doc_claims.py:3485-3499 | comments first, then every line sorted once, the dropped documents' lines replaced |
| LedgerText.RewrittenHolds | scripts/doc_claims.py:3485-3499 | the rewritten text has the same comments, and as data the kept and added lines, sorted, once each |
| LedgerText.StaysIs | scripts/doc_claims.py:3494-3497 | a data line goes exactly when its second field is a dropped document, whether it is well formed or not |
| LedgerText.OthersUntouched | scripts/doc_claims.py:3492-3498 | other documents' lines are there exactly when they were; the dropped documents' lines are exactly the added ones |
| LedgerText.RewritingIsIdempotent | scripts/doc_claims.py:3485-3499 | rewriting twice with the same lines is rewriting once |
| LedgerText.RuleIsKept | scripts/doc_claims.py:3485-3499 | a ledger that met the rule meets it for the new set of wanted lines |
| Gate.WalkFiles | scripts/doc_claims.py:2522-2540 | the walk below the claims directory: the documents with a registry, and every file that is none and not the ledger |
| Gate.CheckRoll | scripts/doc_claims.py:2485-2499 | a list out of order or with a repetition, and each document on it that is not eligible or has a registry |
| Gate.CheckFiles | scripts/doc_claims.py:2556-2574 | the problems of all registries in sorted order, and the ledger lines that their well-formed entries want |
| Gate.Check | scripts/doc_claims.py:2515-2588 | the whole check but for the mechanisms: everything it reports in order, and what it says of the ledger; nothing is wrong exactly when the gate holds |
| Gate.GateIsExact | scripts/doc_claims.py:2515-2588 | nothing is reported exactly when every eligible document is registered, pending or deferred and in one way only, no other one is, both lists are sorted, every file has its place, every registry agrees with its page, and the ledger is what all registries together want |
| GateReports.ReportedIs | scripts/doc_claims.py:2515-2588 | each problem the check reports is reported exactly when the inventory, the lists and the files have it |
| AuditPlan.Plan.constructor | scripts/doc_claims.py:3252-3268 | an empty plan |
| AuditPlan.SortRows | scripts/doc_claims.py:3322-3368 | the loop over the rows: counts, printed lists, `rows_of` in insertion order and `held` |
| AuditPlan.SortRow | scripts/doc_claims.py:3323-3368 | one row |
| AuditPlan.SortMustGo | scripts/doc_claims.py:3327-3344 | an R or X row: on the page, not placed, or gone |
| AuditPlan.SortUnmapped | scripts/doc_claims.py:3345-3362 | a row in prose the splitter does not read, or on no one unit |
| AuditPlan.EntryFor | scripts/doc_claims.py:3404-3458 | one unit's entry or none, the outcome of each of its rows, and what is printed |
| AuditPlan.CiteUnit | scripts/doc_claims.py:3443-3457 | covered rows: their targets in order, their outcomes, and what the resolver leaves by hand or refuses |
| AuditPlan.SettleAll | scripts/doc_claims.py:3370-3377 | the loop over the units that have rows |
| AuditPlan.AddPageUnits | scripts/doc_claims.py:3380-3397 | the loop over the page's texts: an entry, none, or a new unit, with counts and ledger lines |
| AuditPlan.AddEntry | scripts/doc_claims.py:3389-3397 | an entry with its count when the text is on the page more than once, its ledger line and its count |
| AuditPlan.PlanDocument | scripts/doc_claims.py:3275-3401 | the whole plan, for every placement of its rows; an empty one with an error when the page or its audited form cannot be split |
| Placement.PickUnits | scripts/doc_claims.py:3188-3200 | the units near that hold a fragment no other one holds, or that the excerpt holds whole, in page order |
| Placement.UnitsOfRow | scripts/doc_claims.py:3203-3224 | the units a row maps to (picked on its line, else within two lines, else the one on its line) and those on its line |
| Placement.MappedAreNear | scripts/doc_claims.py:3203-3224 | a unit mapped to is on or near the row's line, and is picked there or the only one on the line |
| Placement.WhichAreMapped | scripts/doc_claims.py:3203-3224 | exactly the units the excerpt picks on the line, when it picks any; else exactly those it picks within two lines; else the one on the line, if it is the only one |
| Placement.PlaceIs | scripts/doc_claims.py:3227-3249 | a row is outside the prose when its line has text on the page and none of it is visible; its excerpt is on a page when each of its pieces, or all of it when it has none, is a part of the page's text |
| Placement.PlacedOnOldUnits | scripts/doc_claims.py:3319-3326 | a row maps to, and holds back, units of the page at the audit only |
| Placement.NewUnitsGetNoEntry | scripts/doc_claims.py:3290-3291 | a unit new since the audit gets no entry, whatever the rows: it is counted as new |
| Placement.PlanPage | scripts/doc_claims.py:3275-3401 | the plan from the page, the page at the audit and the rows' lines and excerpts, each row placed by `outside_prose`, `units_of_row` and `on_page` |
| AuditFacts.FirstLoopCounts | scripts/doc_claims.py:3323-3366 | each count of the first loop is the number of rows of that class |
| AuditFacts.RowsOfIs | scripts/doc_claims.py:3363-3368 | a unit's rows are exactly the rows that go to it |
| AuditFacts.HeldIs | scripts/doc_claims.py:3344-3358 | the units held back are exactly those of the rows that hold them |
| AuditFacts.OutcomeIs | scripts/doc_claims.py:3408-3412 | the recorded outcome is the running least over the units in order |
| AuditFacts.LeastOnIs | scripts/doc_claims.py:3271-3272 | no unit gives a row less than its outcome, and some unit gives that |
| AuditCounts.HasOutcome | scripts/doc_claims.py:3363-3379 | a row has an outcome exactly when it goes to a unit still on the page |
| AuditCounts.CountIsExact | scripts/doc_claims.py:3323-3379 | each of the nine counts is the number of rows that end up there |
| AuditCounts.RowsAreConserved | scripts/doc_claims.py:3323-3379 | `rows` is the number of rows and the sum of the nine counts |
| AuditCounts.OutcomeIsLeast | scripts/doc_claims.py:3271-3272 | a row on several units takes the least of `OUTCOMES` any of them gives it |
| AuditEntries.WhoGetsAnEntry | scripts/doc_claims.py:3380-3389 | a unit gets an entry exactly when rows go to it, none of them untagged without a covering `by`, and one is a debt or resolves to a target; or no row goes to it, none holds it and it was on the page at the audit |
| AuditNames.FateIs | scripts/doc_claims.py:3380-3458 | what a unit of the page becomes, by the rows: where rows map to it, held if one is not mappable, else `untested:A` if an A row does, else `untested:S`, else `untested:T`, else every target a row resolves to, once each in order of first appearance, or held if there is none; where no row maps to it, held, new, or `exempt:baseline` |
| AuditNames.RowOutcome | scripts/doc_claims.py:3271-3272 | a row on units of the page counts as mapped when some unit maps it, else as refused when some unit refuses it, else as left to hand |
| AuditEntries.HeldUnitGetsAnEntry | scripts/doc_claims.py:3381-3385 | a unit that some row holds back gets an entry exactly when the rows that go to it entitle it to one, as if it were not held (the documentation at 168-173 says it gets none) |
| AuditEntries.XAndTOnOneUnit | scripts/doc_claims.py:3381-3385 | for example an X row and a T row on one unit (168-169) |
| Placement.XAndTOnAPage | scripts/doc_claims.py:3319-3389 | the same from a page of one unit and two rows on its line, whatever their excerpts |
| AuditEntries.SeveralAndTOnOneUnit | scripts/doc_claims.py:3381-3385 | for example a row that picks none of the units on its line, and a T row on one of them (170-172) |
| AuditEntries.PlanWrites | scripts/doc_claims.py:3380-3397 | the entries and ledger lines are those of the page's texts in order of first appearance |
| AuditEntries.EntriesAreThePage | scripts/doc_claims.py:3390-3392 | the entries carry the page's own multiplicities: they are the page as a multiset exactly when every text has one |
| AuditEntries.PlanMeetsTheRegistryCheck | scripts/doc_claims.py:3380-3397 | the registry check finds no problem with the plan's entries exactly when the rows make an entry due for every unit of the page and none is there more than 999 times |
| AuditEntries.OnlyUnregistered | scripts/doc_claims.py:3380-3397 | with no unit that is due an entry that frequent, all it reports are the units due none |
| AuditEntries.PlanLedgerIsWanted | scripts/doc_claims.py:3393-3396 | the plan's ledger lines are exactly those its entries want |
| AuditEntries.GeneratedLedgerMeetsTheRule | scripts/doc_claims.py:3485-3499 | a ledger that met the rule, rewritten with the plan's lines, meets it again for the plan's registry beside the other documents |
| Generated.GeneratedGateHolds | scripts/doc_claims.py:2515-2588 | end to end: in a tree the check passes, generate a pending document from its audit, rewrite the ledger and take the document off the list; the check passes the new tree exactly when the rows make an entry due for every unit of the page and none is there more than 999 times |
| AuditPrinted.FirstLoopPrints | scripts/doc_claims.py:3327-3362 | each row the first loop settles is printed in its own list and in no other |
| AuditPrinted.RowsAreListed | scripts/doc_claims.py:3502-3530 | for every row, exactly which of the five printed lists it is in |
| AuditPrinted.RowsArePrinted | scripts/doc_claims.py:3296-3299 | for every row, whether it is printed at all, by the class it is counted in: always when on the page, not placed, outside the prose and uncovered, or refused; by hand unless it goes to units and is silent there; mapped exactly when some unit leaves it to hand or refuses a target; never when gone, covered outside the prose, or on a unit that changed |
| AuditPrinted.BlankCiteIsDropped | scripts/doc_claims.py:2981-2987 | a row whose `by` is blank: counted by hand and in no printed list |
| AuditPrinted.ChangedUnitIsDropped | scripts/doc_claims.py:3363-3366 | a covered row whose unit changed, whatever its `by`: counted as that and in no printed list |
| Shards.ParseLabel | scripts/doc_examples.py:1762-1776 | parsing a label gives its shard back, with or without a final line break, and nothing when the count is above 999 |
| Shards.LabelOfParsed | scripts/doc_examples.py:1767-1776 | whatever parses is the label of the shard it gives, up to one final line break |
| Shards.ShardPlan | scripts/doc_examples.py:1779-1799 | the plan: pages that run, sorted, grouped by profile, dealt round-robin |
| Numbers.ValueOfDigits | scripts/doc_examples.py:1767-1776 | reading a written number gives it back |
| PlanFacts.StrideAt | scripts/doc_examples.py:1797-1798 | a hand is every n-th page from its own start, all of them |
| PlanFacts.DealIsComplete | scripts/doc_examples.py:1795-1798 | dealing to n hands gives out every page once |
| PlanFacts.PlanIsComplete | scripts/doc_examples.py:1779-1799 | every page that runs is in the plan exactly as often as it is enrolled |
| PlanFacts.PlanHolds | scripts/doc_examples.py:1779-1799 | exactly the shards 1 to n of each profile, n the pages over PAGES_PER_SHARD rounded up, each with its own hand |
| PlanFacts.PlannedAre | scripts/doc_examples.py:2824-2831 | the shards in the plan are exactly those: the check of a given shard refuses any other |
| PlanFacts.ShardPagesRun | scripts/doc_examples.py:1779-1799 | the pages of a shard run and are of its profile |
| PlanFacts.ProfilesAre | scripts/doc_examples.py:1752-1754 | a shard's pages are those that need the full image, a development server, or neither, as its profile says |
| PlanFacts.ShardSize | scripts/doc_examples.py:293-295 | no shard is empty or holds more than PAGES_PER_SHARD pages |
| PlanFacts.ShardsAreEven | scripts/doc_examples.py:1795-1798 | sizes within a profile differ by at most one |
| PlanFacts.OneHandAShard | scripts/doc_examples.py:1779-1799 | equal shards of the plan have equal hands (that no shard is in it twice is `Pipeline.EntriesApart`) |
| Runner.RunPages | scripts/doc_examples.py:2862-2917 | every selected page gets exactly one result; the pages started are a prefix of the selected ones, up to where the deadline first comes; how the run stopped and whether it fails |
| Runner.RunShard | scripts/doc_examples.py:2816-2919 | the pages a shard, a page or all select; refused exactly when the static check fails, for a page not enrolled, a shard not planned, or a page that needs the full profile in a tree without `modules`, by the first of these in this order |
| Runner.SelectedIs | scripts/doc_examples.py:2822-2836 | a page is selected exactly when it runs, is in the shard's hand where a shard is given, and is the page asked for where one is |
| Runner.NoneStartsLater | scripts/doc_examples.py:2862-2880 | `stopped` latches: from the first page the deadline comes before, no page starts, though its own turn be in time |
| Runner.ResultsAre | scripts/doc_examples.py:2862-2880 | each page's result: of one that ran what it measured, passed exactly without problem and with all its blocks reached; of the first one the deadline comes before and every later one, nothing reached and no pass |
| Runner.StoppedWithoutFailing | scripts/doc_examples.py:2902-2919 | a run records `stopped` and does not fail exactly when the deadline comes only after its last page, every page is in time and passes, and no volume is lost |
| Runner.TeardownFits | scripts/doc_examples.py:1863-1875 | a teardown begun by the deadline gets at least its reserve, ends 60 s before the job's timeout, and has all the whole seconds up to then, at most ten minutes |
| Summary.Summarise | scripts/doc_examples.py:1918-2051 | the reports read, judged and added up, with every problem in order |
| SummaryFacts.ReadFit | scripts/doc_examples.py:1944-1975 | reading adds no problem exactly when every file is an unstopped report of a planned shard of its own |
| SummaryFacts.AcceptedMeansAllRan | scripts/doc_examples.py:1918-2051 | soundness: an accepted summary means every planned shard sent one unstopped report and every page that runs is in exactly one report, with `exec` and `reached` the enrolment's number and passed, and nothing else is reported |
| SummaryFacts.AllRanIsAccepted | scripts/doc_examples.py:1918-2051 | completeness of the same condition |
| SummaryFacts.TotalMatches | scripts/doc_examples.py:2011-2048 | with every result right the total equals `[meta] exec`, so that test never fails alone |
| SummaryReports.HeldIs | scripts/doc_examples.py:1964-1975 | a page counts as often as there are reports that hold it, of planned shards; its result is the last one's |
| SummaryReports.TotalAgrees | scripts/doc_examples.py:2011-2048 | the total taken is what the results of the pages that run reached |
| SummaryReports.RaisedIs | scripts/doc_examples.py:1918-2051 | each problem, with its file, shard, page and numbers, is raised exactly when the report files have it |
| SummaryFacts.SummaryIsExact | scripts/doc_examples.py:1918-2051 | accepted exactly for a non-empty list of reports of which all ran once |
| SummaryFacts.StoppedIsRefused | scripts/doc_examples.py:1971-1972 | no files with the report of a stopped run among them are accepted |
| Pipeline.EntriesApart | scripts/doc_examples.py:1779-1799 | no two entries of the plan share a page or are the same shard |
| Pipeline.PipelineIsAccepted | scripts/doc_examples.py:1918-2051 | the reports of runs of all shards, whatever happened in them and in any order, are accepted exactly when every shard count is at most 999 and every run was in time with all its pages passing |
| Pipeline.ExchangeIsAccepted | scripts/doc_examples.py:1974-2008 | accepted reports with the pages of any two exchanged are accepted still |
| Pipeline.RanAsDealt | scripts/doc_examples.py:1974-2008 | of accepted reports, each holds exactly its own shard's hand if and only if none holds a page outside it |
| Stream.ReadStream | scripts/doc_examples.py:2201-2228 | the reader's loop over the lines of standard output; a block number out of range ends it |
| StreamMarks.BeginMeans | scripts/doc_examples.py:2178 | a begin sentinel stands at a place exactly where its head, a numeral and `@@` do; its block is the numeral's value |
| StreamMarks.EndMeans | scripts/doc_examples.py:2179-2181 | an end sentinel stands there exactly where its head, two numerals, flags without `:` and `@`, a lower-case word and `@@` do, with `:` in between; it carries these |
| StreamMarks.BeginSearchIs | scripts/doc_examples.py:2206 | of several begin sentinels in a line the first one counts |
| StreamMarks.EndSearchIs | scripts/doc_examples.py:2207 | and so of end sentinels |
| StreamMarks.LinesAreRead | scripts/doc_examples.py:2201-2228 | of any lines, printed by whom they may be: a block's stdout is the lines below its begin sentinels up to the next sentinel, it ended exactly when an end sentinel of it stands on a line without a begin one, and the last of these gives its status and flags |
| StreamMarks.StopsThere | scripts/doc_examples.py:2201-2228 | the first end sentinel of a block that is not there, or output of one, stops the reader; what is known is what the lines above say |
| StreamFacts.BeginIsRead | scripts/doc_examples.py:2148-2164 | a printed begin sentinel is read as its block |
| StreamFacts.EndIsRead | scripts/doc_examples.py:2148-2164 | a printed end sentinel is read as its block, status, flags and pipefail |
| StreamFacts.EndSearched | scripts/doc_examples.py:2201-2228 | a line with an end sentinel is not taken for a begin one |
| StreamFacts.CutSentinelIsQuiet | scripts/doc_examples.py:2201-2228 | a sentinel cut short is none |
| StreamReading.QuietPrefix | scripts/doc_examples.py:2201-2228 | no prefix of output without sentinels holds one |
| StreamReading.ReadQuiet | scripts/doc_examples.py:2222-2228 | such output goes to the open block and changes nothing else |
| StreamCuts.StreamIsRead | scripts/doc_examples.py:2148-2228 | round trip: each block's stdout is its output plus one newline, with its status and flags |
| StreamCuts.StreamCutAnywhere | scripts/doc_examples.py:2201-2228 | for any prefix of the stream the reached blocks are an initial segment with complete stdout: those whose end sentinel is wholly in the prefix |
| Matching.FindExpectation | scripts/doc_examples.py:2280-2296 | the end of the first match that does not begin or end inside a word, or -1 when there is none |
| Matching.FindMissing | scripts/doc_examples.py:2331-2340 | an expectation is missing exactly when no ordered, non-overlapping, word-bounded placement of all exists; it is the first that cannot be placed |
| Matching.TakeFirst | scripts/doc_examples.py:2331-2340 | the exchange: taking the first match keeps the rest placeable whenever any match does |
| Matching.ContainsInOrder | scripts/removed_units.py:98-106 | found exactly when there are pieces and an ordered, non-overlapping placement of them exists |
| Judge.JudgeRun | scripts/doc_examples.py:2299-2360 | every way the run fell short, in order, stopping at the first block not reached |
| Judge.JudgeBlock | scripts/doc_examples.py:2320-2355 | the tests of one block that reached its end |
| JudgeReports.ReportedIs | scripts/doc_examples.py:2299-2360 | each problem is reported exactly when the run has it: a block before the first not reached that exited otherwise, was not strict, misses an expectation or has output none expects, the first block not reached and why, and a status of bash other than 0 |
| Judge.JudgeIsExact | scripts/doc_examples.py:2299-2360 | no problem exactly when every block ended with 0 in strict mode with its expectations placeable and no unexpected output, nothing broke the run, and bash exited with 0 |
| Judge.WholeRunIsExact | scripts/doc_examples.py:2201-2360 | the same said of the blocks that printed the stream |
| Judge.CutRunIsNamed | scripts/doc_examples.py:2313-2319 | on a stream cut anywhere the verdict ends by naming the first block whose end is missing, with the number of blocks above it; every other problem is about one of those |
| SuiteCheck.CheckRan | scripts/check_test_shards.py:283-317 | what ran against what was selected, and the outcomes |
| SuiteCheck.CheckNarrowing | scripts/check_test_shards.py:163-192 | every way a session was narrowed |
| SuiteCheck.CheckShard | scripts/check_test_shards.py:250-269 | one shard's problems |
| SuiteCheck.CheckIndexes | scripts/check_test_shards.py:211-224 | missing, repeated and out-of-range shard numbers |
| SuiteCheck.CheckCollected | scripts/check_test_shards.py:226-246 | shards that collected another list, and tests collected twice |
| SuiteCheck.CheckSuite | scripts/check_test_shards.py:195-280 | the problems with a suite's reports and the number of tests proven |
| SuiteReports.ShardReportedIs | scripts/check_test_shards.py:163-317 | each problem of one shard is reported exactly when its report has it |
| SuiteReports.NarrowedIs | scripts/check_test_shards.py:163-192 | each way a session was narrowed is named exactly when it was |
| SuiteReports.ReportedIs | scripts/check_test_shards.py:195-317 | each problem of a suite, with its shard and tests, is reported exactly when the reports have it |
| SuiteCheck.CheckerIsExact | scripts/check_test_shards.py:195-317 | no problem exactly when shard numbers are 1 to `of`, all collected one same non-empty duplicate-free list, the selected sets are non-empty, disjoint and cover it, each shard ran its selection once with allowed outcomes, none was narrowed or had a collection error |
| SuiteCheck.EveryTestRanOnce | scripts/check_test_shards.py:195-317 | then the multiset of all ids that ran is the collected list |
| Ebml.ReadVint | scripts/docs_journeys_report.py:584-605 | the shifting reader gives the number at a place, or the error, on all bytes |
| Ebml.WhenRefused | scripts/docs_journeys_report.py:584-601 | a number is refused exactly where its first byte is zero or its bytes are not all there |
| Ebml.ReadEncoded | scripts/docs_journeys_report.py:584-605 | reading inverts the encoding of section 4 of RFC 8794 for every width 1 to 8; a size is unknown exactly when all ones; an ID keeps its marker |
| Ebml.EncodeRead | scripts/docs_journeys_report.py:584-605 | whatever is read is the encoding of what is returned |
| Ebml.LimitIsPower | scripts/docs_journeys_report.py:601-605 | a number of L bytes has 2^(7L) values |
| Ebml.ReadChildren | scripts/docs_journeys_report.py:608-620 | the walk over elements; it ends on all bytes |
| Ebml.ChildrenAreInTheFile | scripts/docs_journeys_report.py:608-620 | every yielded end is within the file, elements stand in order, and only the last one can leave its parent |
| Ebml.ChildrenOfWritten | scripts/docs_journeys_report.py:608-620 | walking over serialised elements yields exactly those, in order |
| Ebml.UnknownRunsToTheEnd | scripts/docs_journeys_report.py:614-618 | an element with the unknown size runs to its parent's end, and is cut short where the file ends before |
| Ebml.WalkStaysInside | scripts/docs_journeys_report.py:608-620 | the elements of a parent that ends in the file all start and end inside it exactly when the walk fails or would not fail on the file cut at the parent's end; those are then the same elements |
| Ebml.ChildMayLeaveItsParent | scripts/docs_journeys_report.py:616-618 | for example a parent of three bytes with an element that ends in the fourth |
| RollingIssue.MergeVerdicts | scripts/docs_journeys_report.py:229-237 | all journeys together, refused exactly when one is in two parts, naming one that is |
| RollingIssue.FailedInARow | scripts/docs_journeys_report.py:334-346 | the failures before the first other verdict, runs without the journey passed over |
| RollingIssue.LatestStep | scripts/docs_journeys_report.py:412-419 | the step the body names, or the last one its own comments name |
| RollingFacts.NamedIs | scripts/docs_journeys_report.py:412-419 | it is the last of the body and the comments that names one |
| RollingFacts.OwnStepsAre | scripts/docs_journeys_report.py:412-419 | another account's comment takes no part, wherever it stands |
| RollingIssue.FindIssues | scripts/docs_journeys_report.py:392-419 | each guide's open issue with the step it names, the newest of several |
| RollingFacts.FoundIsNewest | scripts/docs_journeys_report.py:392-419 | a guide has an issue exactly when an open one names it, and it is the one with the highest number |
| RollingIssue.ReadIssues | scripts/docs_journeys_report.py:373-420 | the same of the listed issues, those open with the label: only issues with the pattern's title and the workflow's author, and only its own comments |
| RollingIssue.GuideOfTitle | scripts/docs_journeys_report.py:358 | the title an issue is opened with is read back as its guide, for guides without parentheses and white space and no others |
| RollingFacts.TitlesAre | scripts/docs_journeys_report.py:358 | the titles that name a guide are exactly that one and the same with a line feed after it |
| RollingIssue.Decide | scripts/docs_journeys_report.py:441-490 | one item a journey in sorted order, or the first journey whose header is not its verdict's |
| RollingFacts.HeadersAre | scripts/docs_journeys_report.py:452-482 | a run is refused exactly for a header that is not its verdict's own, of a failing journey always, of another where an issue is to close |
| RollingIssue.HistoryUnused | scripts/docs_journeys_report.py:538-546 | without a failing journey the earlier runs make no difference |
| RollingIssue.Tracker.constructor | scripts/docs_journeys_report.py:524-560 | no run yet and no issue open |
| RollingIssue.Tracker.Carry | scripts/docs_journeys_report.py:505-521 | the posts carried out on the issue tracker, in order |
| RollingIssue.Tracker.Report | scripts/docs_journeys_report.py:524-546 | the earlier runs read when something failed, the decision made on the issues read, its posts carried out, and the run remembered |
| RollingIssue.Tracker.Night | scripts/docs_journeys_report.py:524-560 | a report: the earlier runs and the open issues read, the decision made and carried out, the run remembered; nothing when it is not a scheduled run on the main branch |
| RollingIssue.Tracker.ListedNight | scripts/docs_journeys_report.py:524-560 | the same on the tracker's own listing, with other people's issues and comments in it |
| RollingFacts.NightIsRolled | scripts/docs_journeys_report.py:441-490 | every night keeps at most one open issue a guide; a guide that did not run keeps its issue, a failing one has an issue naming its step when it had one or its latest verdict read was a failure, any other has none |
| RollingPosts.NightMakes | scripts/docs_journeys_report.py:441-490 | what a night does to a guide's issues: a failing guide's open issue keeps its number and body and gets one comment exactly when the step named before differs; one is opened exactly after an earlier failure; any other verdict closes; without a verdict nothing changes |
| RollingPosts.QuietNight | scripts/docs_journeys_report.py:441-490 | a night posts nothing exactly when each journey fails at the step its issue names, or fails without an issue and without an earlier failure to follow, or does not fail and has no issue; then nothing changes but the history |
| RollingFacts.RunAgrees | scripts/docs_journeys_report.py:441-490 | after every sequence of nights each guide's issue is open exactly when its verdicts call for it and names the latest failing step |
| RollingFacts.OpenedIsExact | scripts/docs_journeys_report.py:334-346 | open exactly when, since the last verdict that was not a failure, some failing run found a failure as the latest verdict of the runs it read |
| RollingFacts.NoneOpensEarly | scripts/docs_journeys_report.py:441-465 | an open issue's guide failed in its two latest runs |
| RollingFacts.WindowedIsTwoRed | scripts/docs_journeys_report.py:441-465 | with each previous verdict within the runs read: open exactly when the two latest verdicts are failures |
| RollingFacts.PastIs | scripts/docs_journeys_report.py:535-544 | the runs remembered are the nights given, newest first |
| RollingFacts.EveryRun | scripts/docs_journeys_report.py:441-490 | all of these over every sequence of nights, on those nights' verdicts |
| RollingPosts.RunTells | scripts/docs_journeys_report.py:441-490 | after every sequence of nights the guide's one issue was opened with the first step to tell and has exactly one comment for each later one |
| RollingPosts.NeverTwice | scripts/docs_journeys_report.py:469-478 | no step is told twice in a row |
| RollingListing.ReadsItsOwn | scripts/docs_journeys_report.py:392-419 | whatever other issues and comments are listed, what is read are the workflow's open issues |
| RollingListing.EveryRunAmong | scripts/docs_journeys_report.py:373-490 | every sequence of nights among other people's issues and comments keeps all that a sequence by itself keeps |
| RollingPosts.AmongTells | scripts/docs_journeys_report.py:373-490 | the same among other people's issues and comments |
| RollingFacts.GapDecides | scripts/docs_journeys_report.py:256-287 | two failures with n runs without verdicts between them open the issue exactly while n is below nine: the ten runs listed hold the run itself |
| Closure.DeclaredDependencies | scripts/generate_third_party_licenses.py:374-414 | the worklist ends on every graph, cyclic ones too, and gives the walk's closure |
| Closure.WalkPicksTheLast | scripts/generate_third_party_licenses.py:374-414 | that walk is the one that picks the last pending requirement, of all walks with any pick |
| Closure.LastLineNext | scripts/generate_third_party_licenses.py:395-413 | the last line of a distribution that is wanted is popped next, and those above it stay below it |
| Closure.LaterLineDecides | scripts/generate_third_party_licenses.py:395-413 | of two lines about one distribution the later one decides which extras it is read with |
| Closure.ClosureBounds | scripts/generate_third_party_licenses.py:374-414 | whatever is picked: every name found is installed and reachable with requested extras; every name reachable over edges wanted whatever the extras is found |
| Closure.ExtraFreeIsSure | scripts/generate_third_party_licenses.py:395-413 | a requirement without an extra in its marker is such an edge |
| Closure.ClosureIsExact | scripts/generate_third_party_licenses.py:374-414 | whatever is picked: exactly the reachable names when the reached requirements of each distribution want the same of it |
| Closure.NoExtrasIsUniform | scripts/generate_third_party_licenses.py:374-414 | that is so when nothing reached asks for an extra, whatever unreached distributions and lines that do not hold say |
| Closure.NoExtrasIsExact | scripts/generate_third_party_licenses.py:374-414 | then, whatever is picked, the closure is exactly the reachable set |
| Closure.OrderDoesNotMatter | scripts/generate_third_party_licenses.py:374-414 | where it is exact, two walks with any picks from the same roots in any order and number give the same closure |
| Closure.UniformIsNotNeeded | scripts/generate_third_party_licenses.py:395-413 | the condition is not necessary: a distribution reached with and without an extra, and every order finds all |
| Closure.ExtrasCanBeLost | scripts/generate_third_party_licenses.py:395-413 | a distribution is read once, with the extras of the requirement popped first: an extra asked for later adds nothing |
| Closure.ExtrasKeptInTheOtherOrder | scripts/generate_third_party_licenses.py:395-413 | the same roots in the other order keep it |

## Left out

- VisibleLines.StreamingRefinesOneShot: stated for pages without front matter and fence openers; `WholePage.VisibleIs` says what every page shows.
- Closure.ClosureIsExact: the condition is not necessary (`Closure.UniformIsNotNeeded`). Whether some order loses a name depends on which requirement of each distribution is popped first, and those choices constrain each other. Telling it is as hard as telling whether clauses can be met together: let each variable be a distribution required with two extras, one requiring plainly the clauses that it meets and the other those that its negation meets, and let each clause also be required with an extra for one common name; some order loses that name exactly when an assignment meets all clauses. So no condition that looks at one distribution at a time is exact. The two bounds of `Closure.ClosureBounds` hold without it.
- RollingFacts.EveryRun: posts are taken to be carried out, guides to be one per journey and headers to be the verdicts' own; more than 100 open issues are not modelled.
- RollingListing.EveryRunAmong: other people open issues and comment, but do not close or edit the workflow's own.
- Generated.GeneratedGateHolds: `generate` writes nothing for a document with rows on the page or not placed; the result holds of any plan that is written.
- Gate.Check: the documents' paths hold no tab and no line break, as for `Ledger.CheckLedger`; `mechanism_problems` and the printed counts are not modelled, nor an inventory that cannot be read.
- AuditEntries.PlanMeetsTheRegistryCheck: the resolver is taken to answer with verifying targets only and the targets to hold, as `Resolver.valid` makes sure of before it keeps one.
- StreamCuts.StreamIsRead: the script's `printf` lines are modelled by what they print, one newline before and after each sentinel; that bash runs the blocks in between is taken, not shown, and output with a sentinel in it is excluded.
- Matching.FindExpectation: an empty expectation is excluded; the enrolment's expectations never are, and the source would fail on `expected[0]`.
- Runner.RunShard: whether the static check passes is given, as are the blocks that start the stack; a page's outcome is what `run_page` returns.
- Runner.TeardownFits: time is a real number; the seconds are truncated as the source does.
- `fragments`: the split of an excerpt at ellipses and sentence ends, and `normalise`; the fragments are given. AuditPlan's members take any placement of the rows, and `Placement.PlanPage` takes the source's.
- `Resolver` and `target_problem`: regular expressions over paths and the files they name.
- `webm_facts`, `recordings`: a fixed path of element IDs through the walk that `Ebml.ReadChildren` models, with `struct.unpack`.
- `wait_for_ports`, `run_bounded`, `_kill_group`, reader threads: sockets, processes and threads; a run is the stream it leaves.
- Standard error: its text only goes into messages; the same reader splits it.
- Ledger.CheckLedger: the wanted lines are those of documents whose path holds no tab and no line break, with hashes as `unit_hash` gives them.
- Judge.JudgeRun: blocks have no empty expectation, as for `Matching.FindExpectation`.
- Message texts, and which of several equal messages is kept: a problem is a value of a datatype; two audit rows with the same label print one line.
- Sorted order of the missing and stray ledger lines that `check` prints: they are sets.
- TOML, JSON and file reading: a registry is a list of tables, a report a record, a verdicts file a map; a page result without its keys or a report without `stopped` raises in the source.
- Newline translation when text is read, and line separators other than a line feed.
- Digits other than ASCII ones where a pattern says `\d`: no sentinel that the script prints has one.
- A guide's info string of nothing but Unicode white space, on which `split()[0]` fails in the source.
- HTML rendering checks, the zsh oracle, `bash -n`, `leak_guard.py` and the gates over AWS answers.
