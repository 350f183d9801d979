# tfm.ai demo site — verified model of its logic

This project models, in Dafny, the logic behind three screens of the tfm.ai
demo site.

- **Budget pacing flowchart**
  - the fixed graph of daily pacing steps (`NODES`, `EDGES`, `NODE_MAP`);
  - the page's self-tests;
  - the downstream highlight computed by a breadth-first walk (`outMap`, `pathSets`);
  - the role filter that dims nodes and the focus filter that hides edges;
  - the pan/zoom state machine (`usePanZoom` and the zoom buttons).
- **Campaign auditor and other tools** (`TFMApp.jsx`)
  - the naive CSV reader `parseCSV`;
  - the number reader `toNumber`;
  - `computeMetrics` with its guarded ratios, and the column totals;
  - the recommendation engine `actionables`;
  - the Ops Copilot checklist toggle;
  - the guided-tour modal;
  - the local-SEO URL slug;
  - the class-name joiner `cx`.
- **Automation plan** (`AutomationPlan.jsx`)
  - the week totals over `PHASES`;
  - the progress bar's percentage;
  - the phase cards' title-prefix stripping.

JavaScript numbers are exact `real`s. Strings are `seq<char>`. An absent
value (`undefined`) is `None` of `Option`. The graph's ids and outcome
labels are enumerations, and each has a lemma tying it to the source's
strings.

Modules:

- `Seqs` and `Strings` hold the generic pieces: filter, de-duplication in
  first-seen order, JavaScript whitespace, trim, split and join.
- `Flowchart`, `Reachability`, `ViewFilters` and `PanZoom` model the flowchart.
- `Csv`, `Numbers`, `Metrics`, `Insights`, `Checklist`, `Tour`, `Seo` and
  `ClassNames` model `TFMApp.jsx`.
- `Plan` models `AutomationPlan.jsx`.

Where the page's wording suggests something its code does not do, the model
follows the code:

- **Focus filter.** The focus options are labelled "Minor (>5%)",
  "Major (>25%)" and "Missing/Mismatch" (`BudgetPacingFlowchart.jsx:108-111`),
  which reads as a filter on the variance outcome. `edgeMatchesFocus`
  (lines 257-263) instead keeps an edge by its *target node* (`flagDaily`,
  `flagImmediate`, `missingAny`). `ViewFilters.EdgeMatchesFocus` models the
  code; the `ViewFilters.Declared…MatchesLabel` lemmas show that on the
  declared edges the two readings coincide.

The graph's consistency is checked by the page's own self-tests, one of
which is "Edges reference valid nodes". `Flowchart.SelfTests` models those
verdicts, and `Flowchart.DeclaredGraphPasses` proves that every self-test
passes on the declared graph.

## Model

| member | source | states |
|---|---|---|
| Flowchart.NameRoundTrip | src/BudgetPacingFlowchart.jsx:65-81 | each step's id string reads back as the same step, so the fifteen ids are distinct strings |
| Flowchart.LabelInjective | src/BudgetPacingFlowchart.jsx:87-90 | two outcome labels are equal exactly when the outcomes are the same |
| Flowchart.LabelIs | src/BudgetPacingFlowchart.jsx:212-213 | an edge's label equals an outcome's text exactly when the edge carries that outcome |
| Flowchart.EdgeInGroup | src/BudgetPacingFlowchart.jsx:83-103 | every declared edge lies in one of the five stages of the workflow |
| Flowchart.FocusCompleteHolds | src/BudgetPacingFlowchart.jsx:216-217 | the focus options include all four required values |
| Flowchart.IsLookupSnoc | src/BudgetPacingFlowchart.jsx:105 | adding a node to the end of the list and to the map keeps the map a faithful lookup: the later node wins its id |
| Flowchart.NodeMap | src/BudgetPacingFlowchart.jsx:105 | `Object.fromEntries` has a key exactly for each id in the list, and each id maps to its last node |
| Flowchart.NodeMapUnique | src/BudgetPacingFlowchart.jsx:105 | with distinct ids, every node is what the map returns for its id |
| Flowchart.SelfTests | src/BudgetPacingFlowchart.jsx:210-223 | the six tests, in order and by name; the label tests pass exactly when some edge carries the >5% or >25% outcome, the critical-node test exactly when every critical id is some node's id, the endpoint test exactly when both ends of every edge are some node's id; the focus-options and node-position tests always pass |
| Flowchart.LabelPresentMeans | src/BudgetPacingFlowchart.jsx:212-213 | the label test passes exactly when some edge carries that outcome |
| Flowchart.CriticalPresentMeans | src/BudgetPacingFlowchart.jsx:214-215 | the critical-node test passes exactly when every critical id is declared by some node |
| Flowchart.EdgesResolveMeans | src/BudgetPacingFlowchart.jsx:220-221 | the valid-edges test passes exactly when both ends of every edge are declared nodes |
| Flowchart.DeclaredIdsMatch | src/BudgetPacingFlowchart.jsx:65-81 | the node list declares the ids in the listed order |
| Flowchart.DeclaredIdsUnique | src/BudgetPacingFlowchart.jsx:65-81 | no two declared nodes share an id |
| Flowchart.DeclaredIdsDeclared | src/BudgetPacingFlowchart.jsx:105 | every declared id can be looked up in `NODE_MAP` |
| Flowchart.DeclaredEdgesResolve | src/BudgetPacingFlowchart.jsx:83-103 | both ends of every declared edge are declared nodes |
| Flowchart.DeclaredCriticalIds | src/BudgetPacingFlowchart.jsx:214-215 | all nine critical steps are in `NODE_MAP` |
| Flowchart.SelfTestsPassWhen | src/BudgetPacingFlowchart.jsx:210-223 | any graph with a >5% edge, a >25% edge, all critical nodes and resolving edges passes all six tests |
| Flowchart.DeclaredGraphPasses | src/BudgetPacingFlowchart.jsx:210-223 | the declared graph passes all six self-tests |
| Reachability.OutMap | src/BudgetPacingFlowchart.jsx:232-239 | a node has an entry exactly when some edge leaves it, and its entry lists its outgoing edges in declaration order |
| Reachability.OutsIsOutgoing | src/BudgetPacingFlowchart.jsx:248 | `outMap[id] \|\| []` gives exactly the edges leaving `id`, as a subsequence of the edge list |
| Reachability.KeysFromAdd | src/BudgetPacingFlowchart.jsx:249-251 | visiting a node adds exactly the `from->to` keys of its outgoing edges |
| Reachability.ReachableRefl | src/BudgetPacingFlowchart.jsx:242 | the active node reaches itself |
| Reachability.ReachableStep | src/BudgetPacingFlowchart.jsx:249-252 | following an edge from a reachable node reaches its target |
| Reachability.PathStaysInClosed | src/BudgetPacingFlowchart.jsx:240-255 | a path starting in a set closed under edges stays inside it |
| Reachability.ClosedContainsReachable | src/BudgetPacingFlowchart.jsx:240-255 | a set closed under edges that holds a node holds everything that node reaches |
| Reachability.PushedTargets | src/BudgetPacingFlowchart.jsx:249-253 | every pushed node is reachable from the active node, and every edge leaving the visited node has its target pushed |
| Reachability.BfsSkip | src/BudgetPacingFlowchart.jsx:245 | skipping an already visited queue entry keeps the search invariant |
| Reachability.BfsVisit | src/BudgetPacingFlowchart.jsx:246-253 | visiting a new node keeps the invariant and shrinks the set of nodes still to visit |
| Reachability.PathSets | src/BudgetPacingFlowchart.jsx:240-255 | the search ends with exactly the nodes reachable from the active node, a set closed under edges, and exactly the keys of the edges leaving it |
| Reachability.BfsDone | src/BudgetPacingFlowchart.jsx:243-254 | once the queue is empty, the visited set is exactly the reachable set and the keys are exactly those of the edges leaving it |
| Reachability.VarianceDownstreamClosed | src/BudgetPacingFlowchart.jsx:83-103 | no edge leaves the variance check's downstream set |
| Reachability.WalkReaches | src/BudgetPacingFlowchart.jsx:240-255 | a walk along edges reaches its last node from its first |
| Reachability.DeclaredOutcomeHops | src/BudgetPacingFlowchart.jsx:87-90 | the variance check has an edge to each of its four outcomes |
| Reachability.DeclaredInvestigationHops | src/BudgetPacingFlowchart.jsx:91-92 | a daily flag leads to both budget verifications |
| Reachability.DeclaredEscalationHops | src/BudgetPacingFlowchart.jsx:97-100 | the verifications lead through comments and supervision to resolution |
| Reachability.DeclaredFollowUpHops | src/BudgetPacingFlowchart.jsx:91-100 | the declared edges contain every follow-up hop after the outcomes |
| Reachability.ReachesVarianceDownstream | src/BudgetPacingFlowchart.jsx:83-103 | in any graph with those hops, the variance check reaches every downstream step |
| Reachability.VarianceReach | src/BudgetPacingFlowchart.jsx:83-103 | in the declared graph, the variance check reaches a step exactly when it is downstream: its outcomes, the verifications, comments, supervision and resolution |
| Reachability.VarianceHighlight | src/BudgetPacingFlowchart.jsx:240-255 | selecting the variance check highlights exactly its downstream steps |
| ViewFilters.RoleDim | src/BudgetPacingFlowchart.jsx:231 | a node stays lit exactly when "All" or the node's own role is selected |
| ViewFilters.EdgeMatchesFocus | src/BudgetPacingFlowchart.jsx:257-263 | an edge is kept exactly when the focus is "all", or the focus is "minor", "major" or "mismatch" and the edge goes into that focus's target step (daily flag, immediate flag, mismatch step) |
| ViewFilters.EdgesToRender | src/BudgetPacingFlowchart.jsx:264 | the rendered edges are a subsequence of the edge list, holding exactly the edges that match the focus |
| ViewFilters.Filtered | src/BudgetPacingFlowchart.jsx:256 | every node is kept, in order, and tagged dimmed exactly when `roleDim` holds for it |
| ViewFilters.AllDimsNothing | src/BudgetPacingFlowchart.jsx:231 | with no role selected, nothing is dimmed and every node is shown |
| ViewFilters.OnlyRoleLeavesItsNodes | src/BudgetPacingFlowchart.jsx:231 | with one role selected, the undimmed nodes are exactly that role's nodes |
| ViewFilters.FocusAllKeepsEverything | src/BudgetPacingFlowchart.jsx:258 | focus "all" renders every edge |
| ViewFilters.UnknownFocusHidesAll | src/BudgetPacingFlowchart.jsx:262 | any other focus value renders no edge |
| ViewFilters.DeclaredMinorMatchesLabel | src/BudgetPacingFlowchart.jsx:259 | in the declared graph, an edge goes into the daily flag exactly when it is labelled >5% |
| ViewFilters.DeclaredMajorMatchesLabel | src/BudgetPacingFlowchart.jsx:260 | an edge goes into the immediate flag exactly when it is labelled >25% |
| ViewFilters.DeclaredMismatchMatchesLabel | src/BudgetPacingFlowchart.jsx:261 | an edge goes into the mismatch step exactly when it is labelled Missing/Mismatch |
| PanZoom.Mounted | src/BudgetPacingFlowchart.jsx:265-268 | the mount effect shifts the view to x -120, y 0 and keeps the zoom and drag state |
| PanZoom.Wheel | src/BudgetPacingFlowchart.jsx:120-126 | the wheel multiplies the scale by the factor, clamped to [0.5, 2.25], and changes nothing else |
| PanZoom.ZoomIn | src/BudgetPacingFlowchart.jsx:306 | zoom in gives the scale times 1.05 when that is at most 2.25, and exactly 2.25 otherwise; nothing else changes |
| PanZoom.ZoomOut | src/BudgetPacingFlowchart.jsx:309 | zoom out gives the scale divided by 1.05 when that is at least 0.5, and exactly 0.5 otherwise; nothing else changes |
| PanZoom.MouseDown | src/BudgetPacingFlowchart.jsx:127-130 | pressing starts a drag from the pointer's position and leaves the view alone |
| PanZoom.MouseMove | src/BudgetPacingFlowchart.jsx:131-138 | moving without a drag changes nothing; during a drag the view pans by the pointer's displacement since the last position |
| PanZoom.MouseUp | src/BudgetPacingFlowchart.jsx:139-141 | releasing ends the drag and changes nothing else |
| PanZoom.Step | src/BudgetPacingFlowchart.jsx:114-141 | no event takes the scale out of [0.5, 2.25]; only the wheel and the zoom buttons change the scale, only a move while dragging pans, and the drag flag is set by a press and cleared by a release |
| PanZoom.RunKeepsRange | src/BudgetPacingFlowchart.jsx:114-141 | no sequence of events takes the scale out of [0.5, 2.25] |
| PanZoom.InitialKeepsRange | src/BudgetPacingFlowchart.jsx:115 | from the initial view, mounted or not, the scale stays in range whatever the user does |
| PanZoom.WheelMonotone | src/BudgetPacingFlowchart.jsx:123-124 | a larger wheel factor never gives a smaller scale |
| PanZoom.ClampMonotone | src/BudgetPacingFlowchart.jsx:123-124 | clamping into [0.5, 2.25] keeps the order of two values |
| PanZoom.IdleMovesChangeNothing | src/BudgetPacingFlowchart.jsx:132 | pointer moves without a drag leave the view unchanged |
| PanZoom.DragTelescopes | src/BudgetPacingFlowchart.jsx:131-138 | a drag through many points pans by the displacement from the press to the last point |
| PanZoom.DragExample | src/BudgetPacingFlowchart.jsx:127-141 | press at (100,100), moves to (140,130) and (150,90), release: the view pans by (50,-10) |
| ClassNames.Kept | src/TFMApp.jsx:14 | a class is kept exactly when it was passed and is not empty, and no more classes are kept than arguments were passed |
| ClassNames.KeptSnoc | src/TFMApp.jsx:14 | a further argument adds its class at the end of the kept classes when it is truthy, and nothing otherwise, so order and repeats are kept |
| ClassNames.Cx | src/TFMApp.jsx:14 | the class string is empty exactly when no argument is truthy |
| ClassNames.CxIgnoresFalsy | src/TFMApp.jsx:14 | a falsy argument changes nothing |
| ClassNames.CxAppends | src/AutomationPlan.jsx:5 | a further non-empty class is the whole class string when it is the first truthy argument, and is appended after one space otherwise (the plan's `cx` is the same function) |
| ClassNames.CxSplits | src/TFMApp.jsx:14 | splitting the class string at spaces gives back the kept classes, when none holds a space |
| Strings.Trim | src/TFMApp.jsx:43 | `trim` returns the middle of the text, with whitespace only around it and none at its ends |
| Strings.TrimIdempotent | src/TFMApp.jsx:43 | trimming twice is trimming once |
| Strings.JoinSplit | src/TFMApp.jsx:46 | joining the pieces of a split with the separator gives back the text |
| Strings.SplitJoin | src/TFMApp.jsx:44 | splitting a join of separator-free pieces gives back the pieces |
| Seqs.Dedupe | src/TFMApp.jsx:86 | `Array.from(new Set(...))` keeps each value once, in order of first appearance |
| Seqs.DedupeMapInjective | src/TFMApp.jsx:86 | de-duplicating after an injective encoding is encoding after de-duplicating |
| Csv.DropCr | src/TFMApp.jsx:43 | a carriage return at the end of a line belongs to the break and is dropped |
| Csv.SplitLines | src/TFMApp.jsx:43 | the text is cut at every line feed, into at least one line |
| Csv.SplitLinesMixedBreaks | src/TFMApp.jsx:43 | lines joined with any mix of LF and CRLF breaks are recovered by the split |
| Csv.SplitLinesLf | src/TFMApp.jsx:43 | lines joined with LF breaks are recovered by the split |
| Csv.Column | src/TFMApp.jsx:47 | `cols[i]` is a cell exactly when the record has a column `i`, and `undefined` otherwise |
| Csv.RowOf | src/TFMApp.jsx:47 | the record's keys are exactly the headers, and a repeated header keeps the cell under its last occurrence |
| Csv.RowReadsLastColumn | src/TFMApp.jsx:46-47 | each header reads the column under its last occurrence; a short record reads `undefined` past its end |
| Csv.Fields | src/TFMApp.jsx:46 | a line gives one trimmed field per comma-separated piece |
| Csv.ParseLines | src/TFMApp.jsx:44-49 | the first line names the columns, and each further line gives one record in order |
| Csv.Records | src/TFMApp.jsx:45-49 | one record per remaining line, in order |
| Csv.ParseCsv | src/TFMApp.jsx:42-51 | there is always at least one header; every record has exactly the headers as keys; a text of one line (after trimming) names the columns and has no records |
| Csv.FieldsOfRenderedLine | src/TFMApp.jsx:46 | a line written from clean cells reads back as those cells |
| Csv.LinesOfRender | src/TFMApp.jsx:43 | trimming and splitting a written table gives back its lines |
| Csv.RenderUntrimmed | src/TFMApp.jsx:43 | `trim` leaves a written table unchanged |
| Csv.ParseRenderedLines | src/TFMApp.jsx:44-49 | reading written lines recovers the headers and one record per written record |
| Csv.RenderedRecords | src/TFMApp.jsx:45-49 | each written record line reads back as the record of its cells |
| Csv.ParseRenderRows | src/TFMApp.jsx:42-51 | `parseCSV` of a written table recovers its header line and its records, in order |
| Csv.ParseRender | src/TFMApp.jsx:42-51 | `parseCSV` of a written table gives, for every record and header, the cell under that header's last occurrence |
| Numbers.Clean | src/TFMApp.jsx:61 | the cleaned text keeps exactly the digits, points and minus signs of the input, in their original order (a subsequence of it) |
| Numbers.CleanPiecewise | src/TFMApp.jsx:61 | cleaning a concatenation cleans each part, and one character survives exactly when it is a digit, '.' or '-', so every kept occurrence, repeats included, survives |
| Numbers.ToNumber | src/TFMApp.jsx:61 | a negative number is read only from text with a minus sign, and a number other than 0 only from text with a digit |
| Numbers.ToNumberUndefined | src/TFMApp.jsx:61 | a missing cell counts as 0 |
| Numbers.ToNumberIgnoresOthers | src/TFMApp.jsx:61 | characters other than digits, '.' and '-' do not affect the number read |
| Numbers.NumberOfDigits | src/TFMApp.jsx:61 | a run of digits, with or without a leading minus, reads as its decimal value |
| Numbers.ToNumberDecimal | src/TFMApp.jsx:61 | every whole number written in decimal, with or without a minus, reads back as itself |
| Numbers.ToNumberTwoPoints | src/TFMApp.jsx:61 | a figure with two decimal points is not a number and counts as 0 |
| Numbers.UnsignedTwoPoints | src/TFMApp.jsx:61 | digits with two decimal points do not form a number |
| Metrics.Ratio | src/TFMApp.jsx:71-73 | a zero denominator gives 0; otherwise the ratio times the denominator is the numerator |
| Metrics.Percent | src/TFMApp.jsx:70 | no impressions gives a CTR of 0; otherwise CTR times impressions is 100 times clicks |
| Metrics.WithRatios | src/TFMApp.jsx:64-74 | the metric keeps the row and the five figures, and each of CTR, CPC, CPA and ROAS is 0 on a zero denominator and the exact quotient otherwise |
| Metrics.MetricOf | src/TFMApp.jsx:63-76 | a row's metric keeps the row, its figures are the row's cells read with `toNumber`, and each of its four ratios is 0 on a zero denominator and otherwise undoes the division of its own figures |
| Metrics.ComputeMetrics | src/TFMApp.jsx:63-76 | one metric per row, in order, each keeping its row and with ratios consistent with its figures |
| Metrics.TotalsAppend | src/TFMApp.jsx:304-310 | the totals of two runs of metrics placed end to end are the sum of their totals |
| Metrics.TotalsBase | src/TFMApp.jsx:304-310 | no metrics total zero in every column, and one metric totals its own figures |
| Metrics.TotalsOf | src/TFMApp.jsx:304-310 | metrics with non-negative figures give non-negative totals |
| Insights.TextsDiffer | src/TFMApp.jsx:81-84 | the four recommendation texts differ for the same metric |
| Insights.RuleInsights | src/TFMApp.jsx:80-85 | one metric yields at most four recommendations, exactly those of the rules that fire, in the rules' order (low CTR, low ROAS, high CPA, scale) |
| Insights.InRuleOrder | src/TFMApp.jsx:80-85 | the messages of an ordered selection of the rules are an ordered selection of all four messages |
| Insights.RulesFire | src/TFMApp.jsx:81-84 | a rule's recommendation is produced exactly when its threshold test holds |
| Insights.NeverStopAndGo | src/TFMApp.jsx:82-84 | one metric never yields both a stop (ROAS below 1) and a go (ROAS above 3) |
| Insights.SeverityMeans | src/TFMApp.jsx:82-84 | a raised stop means ROAS below 1, and a raised go means ROAS above 3 |
| Insights.RawMembers | src/TFMApp.jsx:79-85 | a recommendation is produced exactly when some metric's rules produce it |
| Insights.KeyInjective | src/TFMApp.jsx:86 | the de-duplication key `severity + text` tells different recommendations apart |
| Insights.Recover | src/TFMApp.jsx:86 | a key starting with "stop" or "go" loses that word to its severity; any other key is a warning with the whole key as text |
| Insights.RecoverKey | src/TFMApp.jsx:86 | stop and go recommendations come back unchanged, and a warning comes back with "warn" stuck to the front of its text |
| Insights.RecoverInjective | src/TFMApp.jsx:86 | different keys are recovered as different recommendations |
| Insights.Actionables | src/TFMApp.jsx:78-87 | the result holds no duplicates, and holds exactly the recovered form of every raw recommendation |
| Insights.ActionablesOrder | src/TFMApp.jsx:86 | the result lists the raw recommendations once each, in order of first appearance, in their recovered form |
| Insights.WarnKeepsPrefix | src/TFMApp.jsx:86 | a low-CTR warning is shown as "warnLow CTR for …", never with its intended text |
| Insights.NoBareWarning | src/TFMApp.jsx:86 | no warning is shown with a text that does not start with 'w' |
| Insights.RecoverFixedKey | src/TFMApp.jsx:86 | the corrected recovery gives back every recommendation from its key |
| Insights.ActionablesFixedIsDedupe | src/TFMApp.jsx:78-87 | the corrected `actionables` is the raw recommendations without duplicates, in first-seen order, each with its own text |
| Checklist.Toggle | src/TFMApp.jsx:517 | toggling keeps the list's length and labels, flips the clicked item, and leaves every other item unchanged |
| Checklist.ToggleTwice | src/TFMApp.jsx:517 | clicking the same box twice restores the list |
| Checklist.ToggleOutOfRange | src/TFMApp.jsx:517 | an index outside the list changes nothing |
| Checklist.ToggleCommutes | src/TFMApp.jsx:517 | clicks on two boxes give the same list in either order |
| Checklist.ToggleCount | src/TFMApp.jsx:517 | ticking raises the number of ticked items by one, and unticking lowers it by one |
| Checklist.InitialNothingDone | src/TFMApp.jsx:509-515 | the checklist starts with five items and none ticked |
| Tour.ButtonAt | src/TFMApp.jsx:580-584 | on a valid card the button is Finish exactly on the last card |
| Tour.Step | src/TFMApp.jsx:567-584 | no press, close or reopening shows a card outside the tour; a closed tour is shown again only by opening it, and then on the first card; a shown card moves at most one card forward; the tour closes exactly on Close, or on a press of the last card's Finish |
| Tour.RunKeepsValid | src/TFMApp.jsx:567-584 | whatever the user presses, `TOUR[step]` always names a card |
| Tour.PressesWalk | src/TFMApp.jsx:580-584 | pressing walks forward one card per press up to the last card, and the next press finishes the tour |
| Tour.RunAppend | src/TFMApp.jsx:567-584 | running two event sequences one after the other is running them joined |
| Tour.ClosedUntilOpened | src/TFMApp.jsx:164-165 | once closed or finished, the tour stays closed until it is opened again |
| Tour.ReopenRestarts | src/TFMApp.jsx:159-165 | opening a closed or finished tour ("Start tour" or the welcome screen's launch) mounts a fresh modal on the first card, whatever card it was closed on |
| Tour.TourLength | src/TFMApp.jsx:128-135 | five presses reach the sixth and last card, and a sixth press finishes |
| Seo.LowerChar | src/TFMApp.jsx:123 | capitals become their lower-case letters; other characters are kept |
| Seo.Lower | src/TFMApp.jsx:123 | every character is lower-cased in place, so the length and which characters are whitespace are kept |
| Seo.CollapseWs | src/TFMApp.jsx:123 | the result holds no whitespace, is no longer than the input, and is empty exactly when the input is |
| Seo.CollapseNoWs | src/TFMApp.jsx:123 | text without whitespace is left alone |
| Seo.CollapseIdempotent | src/TFMApp.jsx:123 | collapsing twice is collapsing once |
| Seo.CollapseFront | src/TFMApp.jsx:123 | a whitespace-free start passes through unchanged |
| Seo.CollapseJoin | src/TFMApp.jsx:123 | words separated by single spaces come out separated by single hyphens |
| Seo.CollapseRun | src/TFMApp.jsx:123 | a whole run of whitespace, of any kind and length, becomes one hyphen before the collapsed rest |
| Seo.CollapseGap | src/TFMApp.jsx:123 | a word, a run of whitespace and text starting with a non-space come out as the word, one hyphen and the collapsed text |
| Seo.CollapseSpaced | src/TFMApp.jsx:123 | words separated by runs of whitespace of any kind and length come out separated by single hyphens |
| Seo.Slug | src/TFMApp.jsx:123 | a slug never holds whitespace |
| Seo.Url | src/TFMApp.jsx:123 | the business URL starts with the site's address and holds no whitespace, whatever the service and location |
| Seo.SlugOfWords | src/TFMApp.jsx:123 | lower-case words separated by spaces slug to the words joined by hyphens |
| Seo.SlugExample | src/TFMApp.jsx:123 | "Electrical services" slugs to "electrical-services" |
| Plan.TotalsOf | src/AutomationPlan.jsx:41 | the MVP window is 4 to 5 weeks whatever the phases, and when every phase's window is ordered so is the full rollout's |
| Plan.SumsOrdered | src/AutomationPlan.jsx:41 | when no phase's best case exceeds its worst case, the rollout's best case does not exceed its worst case |
| Plan.SumsAppend | src/AutomationPlan.jsx:41 | the week sums of two lists of phases add up |
| Plan.SumsSnoc | src/AutomationPlan.jsx:41 | adding one phase at the end adds its window to both sums |
| Plan.DeclaredTotals | src/AutomationPlan.jsx:51-52 | the declared phases total 16 to 23 weeks and the MVP window is 4 to 5 weeks, matching the header pills, and every declared window is ordered |
| Plan.ProgressPct | src/AutomationPlan.jsx:174-175 | the percentage is not finite exactly when the maximum is 0; otherwise it is the number that, times the maximum, gives 100 times the minimum |
| Plan.ProgressBound | src/AutomationPlan.jsx:174-175 | with 0 < min <= max the bar's width is a finite percentage in (0, 100] |
| Plan.DeclaredProgress | src/AutomationPlan.jsx:99 | the declared plan's bar is filled to 16/23, between 69% and 70% |
| Plan.PrefixLength | src/AutomationPlan.jsx:139 | a match of the title prefix never runs past the title |
| Plan.StripPhasePrefix | src/AutomationPlan.jsx:139 | the shown title is always a suffix of the declared title, and the whole title when the prefix does not match |
| Plan.StripChanged | src/AutomationPlan.jsx:139 | a title shown changed had exactly the prefix "Phase ", one or more digits, whitespace, an en dash and whitespace in front of the shown text |
| Plan.StripNeedsEnDash | src/AutomationPlan.jsx:139 | a hyphen or any other character where the en dash belongs leaves the title unchanged |
| Plan.StripBuilt | src/AutomationPlan.jsx:139 | "Phase", any number, whitespace, an en dash and whitespace are removed, leaving exactly the rest |
| Plan.StripWithoutWord | src/AutomationPlan.jsx:139 | a title not starting with "Phase " is shown unchanged |
| Plan.StripTitle | src/AutomationPlan.jsx:139 | every card title shows its phase's name |
| Plan.DeclaredCardTitles | src/AutomationPlan.jsx:24-28 | the first card shows "Baseline & guardrails" and the last "Unified dashboard & role views" |

## Left out

- Rendering and interaction plumbing are not modelled: React components,
  animations, icons, styles, themes, modals' markup, tooltips and arrow
  geometry. The same goes for the node cards' grid coordinates (`gp`,
  `GRID`), which only place the cards.
- The node details panel's titles, subtitles and notes are not modelled.
  Their text is declared but no property reads them.
- PanZoom.Wheel: the factor `Math.exp(-deltaY * 0.001)` is a positive real
  parameter, because exponentiation is not modelled. The handler reads the
  scale of the render it was created in, and that stale closure is modelled
  as the current scale.
- Numbers.ToNumber: floating point is not modelled, so numbers are exact
  reals and the `Number.isFinite` guard only rejects text that does not
  read as a number. A figure beyond the largest double (a string of 310 or
  more digits, say) reads as 0 on the site and as its exact value here.
- Numbers.ToNumberDecimal: only whole numbers are round-tripped. Decimal
  fractions are parsed exactly, but no lemma states their round trip.
- Seo.LowerChar: lower-cases ASCII capitals only. Unicode case mapping is
  not modelled.
- Seo.Lower: lower-cases ASCII capitals only, for the same reason.
- Csv.RowOf: a record is a map, so the JavaScript quirk where a header
  named `__proto__` is dropped is not modelled.
- The `try`/`catch` around `parseCSV` is not modelled. Nothing in the
  modelled reader can throw.
- The five sample datasets (`SAMPLE_SETS`) are not modelled. Only the
  reader is.
- File upload (`FileReader`), the celebration timer and the clipboard are
  left out because they are I/O.
- The tour's "step / TOUR.length" counter text is not modelled.
- `buildContent`, the keyword and meta texts of the SEO planner, and the
  rest of the JSON-LD object are not modelled. Only the URL slug is.
- The phase card's "Phase {index}" caption is not modelled. It numbers cards
  from 1 while the titles number phases from 0.
- The "Automation Plan" team list, timeline rows and other static copy are
  not modelled.

## Findings

| source | as written | input that shows it | evidently intended | confidence | as-written member | corrected member |
|---|---|---|---|---|---|---|
| src/TFMApp.jsx:86 | each de-duplicated key is split back by stripping a leading "stop" or "go"; a warning's key keeps its "warn" prefix, so the text displayed at line 380 begins "warnLow CTR for …" or "warnHigh CPA on …" | any metric with CTR below 0.7, e.g. a row with 100000 impressions and 100 clicks | the severity prefix is stripped for every severity, so warnings show their own text | high, not executed | Insights.WarnKeepsPrefix | Insights.ActionablesFixedIsDedupe |
