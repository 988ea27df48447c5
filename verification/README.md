# CarbonReportSAUR core, modelled in Dafny

CarbonReportSAUR turns a carbon-footprint workbook of a water utility into
a Word report. The workbook comes in one of two layouts:

- the standard layout, with one sheet per table (ORG_TREE, EMISSIONS,
  INDICATORS, TEXTE_RAPPORT, ...);
- the flat layout, with a single DATA sheet plus TEXTE_RAPPORT.

The report is built in five steps:

1. A loader reads and validates the workbook.
2. The organisation tree (an ORG root, LOT sites, ENT activity entities)
   is built and checked.
3. Emissions are aggregated per LOT and activity (EU for waste water, AEP
   for drinking water), or per activity of the organisation when there
   are no LOTs. Indicators are collected the same way.
4. A content catalog says which text, chart, table or image goes with
   each level-1 emission item (*poste*).
5. A Word template is filled in: `{{KEY}}` placeholders are replaced,
   `[[START_...]]`/`[[END_...]]` blocks are handled, charts are inserted,
   and paragraphs that are nothing but an unfilled placeholder are
   removed.

This project models those steps and proves what each one promises.

| Dafny file | module | models |
|---|---|---|
| `word_blocks.dfy` | `WordBlocks` | block markers: find, duplicate, remove, replace inside a block |
| `word_renderer.dfy` | `Renderer` | the simple replacements, paragraph rewriting, image insertion, cleanup, `render` |
| `content_catalog.dfy` | `Catalog` | the catalog of report contents per poste and activity |
| `calc_emissions.dfy` | `Emissions` | user overrides, the per-node aggregation, the brut/net calculation |
| `tree.dfy` | `Tree` | the organisation tree, its queries and its structural checks |
| `calc_indicators.dfy` | `Indicators` | indicator results and the indicator calculation |
| `flat_loader.dfy` | `Flat` | the flat-layout loader: validation, row classification, sheet builders, output schemas |
| `excel_loader.dfy` | `ExcelLoad` | the standard-layout loader: sheets, columns, business rules |
| `docx.dfy` | `Docx` | the document as a body of paragraphs and tables |
| `result_keys.dfy` | `ResultKeys` | the result keys `ORG`, `ORG_<act>`, `LOT_<id>_<act>` |
| `dicts.dfy`, `sequences.dfy`, `text.dfy`, `wrappers.dfy` | | insertion-ordered dictionaries, sequence lemmas, string functions, `Option`/`Result` |

Modelling conventions:

- **Documents.** A document is a sequence of body elements, each a
  paragraph or a table. A paragraph is a sequence of runs, each with text
  and a style. The paragraph view `Paragraphs(body)` is what python-docx's
  `doc.paragraphs` returns, and block indices are positions in it.
- **Dictionaries.** A Python dict is a sequence of key/value pairs with
  distinct keys (`Dicts`), so its insertion order is kept. Where only
  lookup matters, a dict is a Dafny `map`.
- **Tables of data.** A pandas DataFrame is a list of column names plus
  rows of cells. A cell is blank, a number or a text.
- **Messages.** Error and warning strings are structured `Issue` values,
  one constructor per message the source formats.
- **Formatting.** The number formatter and the KPI conversions are
  parameters (`Formatters`). Chart images are parameters too.
- **Classes.** Each Python class whose methods update its fields is a
  Dafny class. Its methods are proved against specification functions
  of the old state.

## Model

| member | source | states |
|---|---|---|
| `WordBlocks.BlockProcessor.constructor` | src/word_blocks.py:15-22 | the processor works on the given document |
| `WordBlocks.BlockProcessor.FindBlock` | src/word_blocks.py:24-50 | returns the last start marker before the first end marker that closes a block, with no marker strictly between them; None exactly when no end marker closes a block |
| `WordBlocks.ScanBlock` | src/word_blocks.py:35-50 | the scanning loop finds exactly the block `FindBlock` promises |
| `WordBlocks.FoundBlockIsBlock` | src/word_blocks.py:38-48 | a found block has no marker strictly inside it |
| `WordBlocks.FoundBlockUnique` | src/word_blocks.py:38-48 | the found block is unique |
| `WordBlocks.FoundBlockPrefix` | src/word_blocks.py:38-48 | the found block depends only on the paragraphs up to its end marker |
| `WordBlocks.BlockProcessor.DuplicateBlock` | src/word_blocks.py:73-110 | an end index outside the paragraphs is an error that changes nothing; otherwise n copies of the block are inserted after it |
| `WordBlocks.DuplicatedView` | src/word_blocks.py:85-110 | the paragraphs become those up to the end, n copies of the block, then the rest |
| `WordBlocks.DuplicatedBlocks` | src/word_blocks.py:85-110 | the length grows by n times the block length, a new scan finds the same block, and every copy is a block |
| `WordBlocks.InsertCopies` | src/word_blocks.py:93-108 | the insertion loop puts the n copies right after the end marker |
| `WordBlocks.InsertBlockAfter` | src/word_blocks.py:101-107 | one pass of the inner loop puts one copy of the block, in order, right after the current insertion point |
| `WordBlocks.CollectExtent` | src/word_blocks.py:87-91 | the collected block is the paragraphs from start to end marker |
| `WordBlocks.BlockProcessor.RemoveBlockMarkers` | src/word_blocks.py:112-130 | the body loses exactly the marker paragraphs |
| `WordBlocks.BlockProcessor.MarkerPositions` | src/word_blocks.py:120-125 | the collected positions are increasing and are exactly those of the paragraphs whose stripped text equals either marker |
| `WordBlocks.WithoutMarkersSpec` | src/word_blocks.py:112-130 | no marker paragraph is left, and every other element stays |
| `WordBlocks.WithoutMarkersIdempotent` | src/word_blocks.py:112-130 | removing markers twice is removing them once |
| `WordBlocks.MarkerMatchingDiffers` | src/word_blocks.py:112-130 | removal needs the stripped text to equal a marker, while the search only needs it to contain one |
| `WordBlocks.BlockProcessor.ReplaceInBlock` | src/word_blocks.py:132-203 | the body becomes the body with the block's paragraphs and tables substituted |
| `WordBlocks.ReplacedInBlockView` | src/word_blocks.py:132-203 | paragraphs inside the block are substituted, all others are unchanged |
| `WordBlocks.TableInBlockByPosition` | src/word_blocks.py:169-185 | a table is in the block exactly when it lies between the start and end paragraphs |
| `WordBlocks.SubstituteParagraph` | src/word_blocks.py:146-167 | the run-rewriting loop computes the substituted paragraph |
| `WordBlocks.SubstitutedText` | src/word_blocks.py:146-167 | the text is the replaced text; when it changed, run 0 holds it, the other runs are empty and every style is kept |
| `WordBlocks.SubstitutedUntouched` | src/word_blocks.py:146-167 | a paragraph holding no key is unchanged |
| `WordBlocks.IsElementInRange` | src/word_blocks.py:205-229 | true only when all three elements are in the body |
| `WordBlocks.InRangeByPosition` | src/word_blocks.py:205-229 | among distinct elements, in range exactly when its position lies between start and end |
| `WordBlocks.BlockTemplate.constructor` | src/word_blocks.py:234-244 | keeps both markers and starts with no instance |
| `WordBlocks.BlockTemplate.AddInstance` | src/word_blocks.py:246-253 | appends the replacements as the last instance and keeps the markers |
| `Renderer.SimpleReplacementsInOrder` | src/word_renderer.py:99-160 | the replacements are the assignments in insertion order, with distinct keys |
| `Renderer.SimpleReplacementsAlways` | src/word_renderer.py:99-160 | the year defaults to "2024", the KPIs to "N/A", the comparison text to "" and the top length to 4 |
| `Renderer.SimpleReplacementsOrgKeys` | src/word_renderer.py:114-142 | each organisation key is present exactly when there is an organisation result |
| `Renderer.SimpleReplacementsOrg` | src/word_renderer.py:114-142 | the organisation keys hold its name, its formatted totals, its scope-3 share and the two KPIs |
| `Renderer.SimpleReplacementsTop` | src/word_renderer.py:144-150 | TOP_POSTE_i is present exactly for 1 ≤ i ≤ min(3, number of top postes) and holds the label, or the code when no label is known |
| `Renderer.SimpleReplacementsBraced` | src/word_renderer.py:99-160 | every key is a `{{...}}` placeholder |
| `Renderer.AssignedKeysDistinct` | src/word_renderer.py:99-160 | no key is assigned twice |
| `Renderer.ReplaceInParagraph` | src/word_renderer.py:162-197 | the loop computes the replaced paragraph |
| `Renderer.ParagraphReplacedFacts` | src/word_renderer.py:162-197 | no `{{` means no change; otherwise the text is the sequential replacement, run 0 holds it, the other runs are empty, and styles and alignment are kept |
| `Renderer.GuardSkipsOnlyUnchanged` | src/word_renderer.py:170-183 | with `{{`-keys, the `{{` guard skips only paragraphs that would not change |
| `Renderer.SimpleReplacedViews` | src/word_renderer.py:79-97 | every body paragraph and every table cell paragraph is replaced, and nothing else changes |
| `Renderer.WordRenderer.ReplaceSimplePlaceholders` | src/word_renderer.py:79-97 | the body becomes the replaced body |
| `Renderer.ImageInsertedInBody` | src/word_renderer.py:301-328 | the first body paragraph holding the placeholder gets the picture, and nothing else changes |
| `Renderer.ImageInsertedInCell` | src/word_renderer.py:301-328 | with no body match, the first matching cell paragraph gets the picture, and nothing else changes |
| `Renderer.ImageInsertedNowhere` | src/word_renderer.py:301-328 | with no match, the body is unchanged |
| `Renderer.WordRenderer.InsertImage` | src/word_renderer.py:301-328 | the body becomes the body with the image inserted |
| `Renderer.WordRenderer.FindBodyHit` | src/word_renderer.py:310-311 | the scan stops at the first body paragraph containing the placeholder, and finds none exactly when no body paragraph contains it |
| `Renderer.WordRenderer.FindCellHit` | src/word_renderer.py:320-324 | the scan stops at the first table with a cell paragraph containing the placeholder, at that table's first such paragraph, and finds none exactly when no table has one |
| `Renderer.WordRenderer.FindParagraphHit` | src/word_renderer.py:323-324 | the scan of one table's cell paragraphs stops at the first that contains the placeholder |
| `Renderer.WordRenderer.InsertOrgCharts` | src/word_renderer.py:296-299 | with an organisation result, each chart that has an image is inserted in order; otherwise nothing changes |
| `Renderer.CleanedSpec` | src/word_renderer.py:330-342 | no bare placeholder paragraph remains, the other paragraphs stay in order, and tables are kept |
| `Renderer.CleanedIdempotent` | src/word_renderer.py:330-342 | cleaning twice is cleaning once |
| `Renderer.LowerCaseKept` | src/word_renderer.py:334-338 | a placeholder with a lower-case letter is not removed |
| `Renderer.BarePositions` | src/word_renderer.py:332-338 | the collection loop lists exactly the bare placeholder positions, in ascending order |
| `Renderer.WordRenderer.DeleteParagraph` | src/word_renderer.py:344-347 | removes exactly that element |
| `Renderer.WordRenderer.CleanEmptyPlaceholders` | src/word_renderer.py:330-342 | the body becomes the cleaned body |
| `Renderer.WordRenderer.ProcessOrgActivityBlocks` | src/word_renderer.py:222-230 | the body is unchanged |
| `Renderer.WordRenderer.ProcessLotBlocks` | src/word_renderer.py:199-220 | the body is unchanged |
| `Renderer.WordRenderer.constructor` | src/word_renderer.py:30-45 | keeps the template and has no document yet |
| `Renderer.WordRenderer.LoadTemplate` | src/word_renderer.py:47-51 | a document is loaded exactly when a template is there |
| `Renderer.WordRenderer.Render` | src/word_renderer.py:53-77 | succeeds exactly when a template is there; the document is the template after replacement, charts and cleanup, in that order |
| `Renderer.RenderedHasNoBarePlaceholder` | src/word_renderer.py:53-77 | no body paragraph of a rendered document is a bare placeholder |
| `Catalog.PosteContent.MatchesActivity` | src/content_catalog.py:22-35 | a BOTH entry matches every activity; any other entry matches exactly its own activity |
| `Catalog.Cleaned` | src/content_catalog.py:76-80 | a key cell is kept exactly when present and not blank |
| `Catalog.ContentCatalog.constructor` | src/content_catalog.py:58-66 | the catalog is built from the rows |
| `Catalog.ContentCatalog.BuildCatalog` | src/content_catalog.py:68-96 | the catalog is the one the rows give |
| `Catalog.CatalogListed` | src/content_catalog.py:68-96 | a code's entries are its rows' contents, in row order |
| `Catalog.CatalogKeys` | src/content_catalog.py:68-96 | the codes are the rows' codes, each once, in order of first appearance |
| `Catalog.CatalogFind` | src/content_catalog.py:68-96 | a code is in the catalog exactly when some row has it |
| `Catalog.CatalogEntries` | src/content_catalog.py:68-96 | each entry is the content of a row with that code |
| `Catalog.Pick` | src/content_catalog.py:112-125 | None exactly for no entry; otherwise the exact activity first, then the first BOTH, then the first entry |
| `Catalog.PickedAtUnique` | src/content_catalog.py:112-125 | the picked entry is unique |
| `Catalog.PickMatches` | src/content_catalog.py:112-125 | when some entry matches the activity, the picked one does |
| `Catalog.ContentCatalog.GetContent` | src/content_catalog.py:98-125 | None exactly when the code has no entry; otherwise the picked entry |
| `Catalog.GetContentOfRows` | src/content_catalog.py:98-125 | None exactly when no row has the code; otherwise the content of such a row |
| `Catalog.KeysAgree` | src/content_catalog.py:127-160 | each `has_*` is true exactly when the matching `get_*_key` finds a key; an absent content gives no key and an empty text |
| `Catalog.HasKeyFromRows` | src/content_catalog.py:127-140 | a `has_*` answer comes from a row with a non-blank key |
| `Catalog.AllPostesOfRows` | src/content_catalog.py:174-176 | all postes are the rows' codes, each once |
| `Catalog.SupportedKeys` | src/content_catalog.py:44-56 | the supported chart, table and image keys are exactly the listed ones |
| `Emissions.NodeName` | src/calc_emissions.py:24-26 | the renamed name when there is one, else the original |
| `Emissions.Shown` | src/calc_emissions.py:28-31 | an unconfigured poste is shown |
| `Emissions.Included` | src/calc_emissions.py:33-36 | an unconfigured poste is included |
| `Emissions.ExcludedIff` | src/calc_emissions.py:45-51 | a poste is excluded exactly when it is configured and not included |
| `Emissions.SetConfigEffect` | src/calc_emissions.py:38-43 | setting a poste's config changes that poste's answers and no other's |
| `Emissions.DefaultConfig` | src/calc_emissions.py:14-51 | with no configuration, everything is shown and included and nothing is excluded |
| `Emissions.EmissionOverrides.constructor` | src/calc_emissions.py:14-22 | keeps the renames and the config |
| `Emissions.EmissionOverrides.SetPosteConfig` | src/calc_emissions.py:38-43 | the poste gets both flags, and every other poste keeps its answers |
| `Emissions.EmissionResult.ScopePercentage` | src/calc_emissions.py:75-80 | 0 for a zero total; otherwise the share that, times the total, gives 100 times the scope's value (0 for a scope without attribute) |
| `Emissions.PercentagesSum` | src/calc_emissions.py:75-81 | when the total is not zero and is the sum of the scopes, the three percentages add up to 100 |
| `Emissions.Aggregate` | src/calc_emissions.py:221-282 | an empty entity list gives zeros; the total is the sum of the scopes; there are at most topN top postes |
| `Emissions.AggregateByPoste` | src/calc_emissions.py:247-269 | one entry per included poste with a row, in code order, each holding the sum of that poste's counted rows |
| `Emissions.AggregateBalances` | src/calc_emissions.py:261-269 | with scopes 1 to 3, the per-poste values add up to the total |
| `Emissions.AggregateRanking` | src/calc_emissions.py:271-280 | top plus other postes are the shown postes sorted by decreasing value, and no top poste is below another poste |
| `Emissions.AggregateOverrides` | src/calc_emissions.py:251-280 | an excluded poste counts in no total, and a hidden or excluded poste is listed nowhere |
| `Emissions.RankingFacts` | src/calc_emissions.py:271-277 | the ranking holds exactly the shown postes, sorted by decreasing value |
| `Emissions.CutRanking` | src/calc_emissions.py:279-280 | cutting a sorted ranking leaves every top poste at least as large as every other poste |
| `Emissions.BrutConfig` | src/calc_emissions.py:116-127 | without overrides, every row of the entities counts and the ranking is the plain sort |
| `Emissions.CollectLabels` | src/calc_emissions.py:106-114 | the loop builds the label dictionary of the references |
| `Emissions.ComputeActivity` | src/calc_emissions.py:192-219 | the result for one node and activity is the aggregate over its entities of that activity |
| `Emissions.AddActivityResults` | src/calc_emissions.py:162-173 | each activity gets its result under its key |
| `Emissions.AddLot` | src/calc_emissions.py:161-166 | one more LOT gets its activity results, and the ORG entry is kept |
| `Emissions.CalculatedLotEntry` | src/calc_emissions.py:159-166 | every LOT and each activity below it has its result under `LOT_<id>_<act>` |
| `Emissions.CalculatedLotKey` | src/calc_emissions.py:142-175 | with LOTs, every key other than ORG names a LOT and an activity below it |
| `Emissions.CalculatedOrgEntry` | src/calc_emissions.py:167-173 | without LOTs, each organisation activity has its result under `ORG_<act>` |
| `Emissions.CalculatedOrgKey` | src/calc_emissions.py:167-173 | without LOTs, every key other than ORG names an organisation activity |
| `Emissions.EmissionCalculator.constructor` | src/calc_emissions.py:89-104 | keeps the tree, the rows and the references |
| `Emissions.EmissionCalculator.GetPosteLabel` | src/calc_emissions.py:284-286 | the label of the last reference with that code, or the code itself |
| `Emissions.EmissionCalculator.Calculate` | src/calc_emissions.py:142-175 | the results are the ORG entry plus the per-LOT or per-activity entries |
| `Emissions.EmissionCalculator.CalculateBrut` | src/calc_emissions.py:116-127 | the calculation with no renames and no configuration |
| `Emissions.EmissionCalculator.CalculateNet` | src/calc_emissions.py:129-140 | the calculation with the overrides' renames and configuration |
| `Tree.OrganizationTree.constructor` | src/tree.py:66-75 | starts with no node and no root |
| `Tree.OrganizationTree.BuildTree` | src/tree.py:77-109 | fails exactly when the build fails, with that error; on success the tree is well formed |
| `Tree.BuiltOutcome` | src/tree.py:77-109 | success exactly when every parent exists, there is at most one root, and the root is an ORG; the root is that node |
| `Tree.BuiltErrors` | src/tree.py:90-109 | each error names what caused it: two roots, a missing parent, no root, or a root that is not an ORG |
| `Tree.BuiltRootErrors` | src/tree.py:104-109 | the no-root and root-not-ORG errors are reported exactly in their cases |
| `Tree.BuiltLinks` | src/tree.py:90-102 | each node's children are the nodes naming it as parent, in row order, and its parent is its parent_id |
| `Tree.BuiltWellFormed` | src/tree.py:77-109 | a built tree is well formed |
| `Tree.BuiltChildrenInOrder` | src/tree.py:97-102 | children are listed in row order |
| `Tree.OrganizationTree.GetNode` | src/tree.py:111-113 | the node with that id, or None exactly when there is none |
| `Tree.OrganizationTree.GetOrg` | src/tree.py:115-119 | the stored ORG root |
| `Tree.OrganizationTree.NodesOfType` | src/tree.py:121-127 | exactly the stored nodes of that type |
| `Tree.OrganizationTree.HasLots` | src/tree.py:129-131 | true exactly when some node is a LOT |
| `Tree.OrganizationTree.GetChildren` | src/tree.py:133-152 | the children of that type, in row order; none for an unknown id |
| `Tree.OrganizationTree.GetDescendants` | src/tree.py:154-179 | the traversal returns the descendants |
| `Tree.OrganizationTree.Descendants` | src/tree.py:154-179 | an unknown id has no descendant |
| `Tree.OrganizationTree.DescendantsComplete` | src/tree.py:154-179 | each node once, and exactly the stored nodes of that type strictly below the id |
| `Tree.OrganizationTree.DescendantsFiltered` | src/tree.py:173-179 | the typed descendants are the untyped ones filtered by type |
| `Tree.TraversalSound` | src/tree.py:173-179 | every node the traversal collects is stored, of the type, and below the start |
| `Tree.TraversalReaches` | src/tree.py:173-179 | every such node below a start that is on no cycle is collected |
| `Tree.TraversalComplete` | src/tree.py:173-179 | below a start on no cycle, the traversal collects each such node exactly once |
| `Tree.OrganizationTree.GetEntsByActivity` | src/tree.py:181-193 | the ENT descendants of that activity, in traversal order |
| `Tree.OrganizationTree.GetEntIdsByActivity` | src/tree.py:220-232 | their ids, each once: exactly the ENTs of that activity below the id |
| `Tree.OrganizationTree.GetLotActivities` | src/tree.py:195-207 | exactly the known activities of ENTs below the LOT |
| `Tree.OrganizationTree.GetOrgActivities` | src/tree.py:209-218 | exactly the known activities of all ENTs |
| `Tree.OrganizationTree.GetDepth` | src/tree.py:38-45 | the number of parent links up to the root |
| `Tree.OrganizationTree.RootDepth` | src/tree.py:38-45 | the root has depth 0 |
| `Tree.OrganizationTree.GetPath` | src/tree.py:47-54 | the chain from the root down to the node, each linked to the next |
| `Tree.OrganizationTree.ValidateStructure` | src/tree.py:262-297 | the messages of the structural issues |
| `Tree.OrganizationTree.EntIssueIff` | src/tree.py:271-274 | an ENT is reported exactly when its activity is not EU or AEP |
| `Tree.OrganizationTree.LotParentIssueIff` | src/tree.py:277-279 | a LOT is reported exactly when its parent is missing or not an ORG |
| `Tree.OrganizationTree.LotEntIssueIff` | src/tree.py:281-283 | a LOT is reported exactly when it has no ENT child |
| `Tree.OrganizationTree.CycleIssueIff` | src/tree.py:285-295 | some cycle is reported exactly when some node's parent chain never ends |
| `Tree.OrganizationTree.CycleIssueOnCycle` | src/tree.py:285-295 | a reported node lies on a cycle |
| `Tree.OrganizationTree.IssuesParts` | src/tree.py:262-297 | the issues are the ENT, LOT and cycle checks' issues |
| `Tree.OrganizationTree.AcyclicIff` | src/tree.py:285-295 | the tree is acyclic exactly when no cycle is reported |
| `Tree.CycleForever` | src/tree.py:286-295 | a repeated ancestor means the chain never ends |
| `Tree.CycleAbove` | src/tree.py:286-295 | every ancestor of a node on a cycle is on the cycle |
| `Tree.FarAboveOnCycle` | src/tree.py:286-295 | an ancestor at least as far up as there are nodes is on a cycle |
| `Indicators.IndicatorResult.constructor` | src/calc_indicators.py:23-29 | keeps the node and activity, with no indicator |
| `Indicators.IndicatorResult.AddIndicator` | src/calc_indicators.py:31-33 | the code now maps to the indicator, and other codes are unchanged |
| `Indicators.IndicatorResult.GetIndicator` | src/calc_indicators.py:35-38 | the indicator of that code, or None exactly when there is none |
| `Indicators.InfoOfLast` | src/calc_indicators.py:63-72 | a code's reference info comes from its last reference row |
| `Indicators.GroupedCodesFacts` | src/calc_indicators.py:142-148 | the grouped codes are the selected rows' codes, each once, sorted |
| `Indicators.GroupedFacts` | src/calc_indicators.py:142-162 | one entry per selected code, in code order, each the group's sum with its reference info |
| `Indicators.LotIndicatorsPresent` | src/calc_indicators.py:105-164 | a LOT result exists exactly when some row of its entities (or of the LOT itself when it has none) has that activity |
| `Indicators.OrgIndicatorsPresent` | src/calc_indicators.py:166-208 | an organisation result exists exactly when some organisation row has that activity |
| `Indicators.RowsIndicators` | src/calc_indicators.py:194-206 | each selected code is present with the value of its last row |
| `Indicators.OrderBeforeOrder` | src/calc_indicators.py:210-227 | the display-order comparison is a strict weak order |
| `Indicators.CalculatedLotEntry` | src/calc_indicators.py:74-103 | every LOT activity with rows has its result under `LOT_<id>_<act>` |
| `Indicators.CalculatedLotKey` | src/calc_indicators.py:74-103 | with LOTs, every key names a LOT activity and holds its result |
| `Indicators.CalculatedOrgEntry` | src/calc_indicators.py:74-103 | without LOTs, every organisation activity with rows has its result under `ORG_<act>` |
| `Indicators.CalculatedOrgKey` | src/calc_indicators.py:74-103 | without LOTs, every key names an organisation activity and holds its result |
| `Indicators.CalculatedNonEmpty` | src/calc_indicators.py:74-103 | no result is empty |
| `Indicators.IndicatorCalculator.constructor` | src/calc_indicators.py:46-61 | keeps the tree, the rows and the references |
| `Indicators.IndicatorCalculator.PrepareReferences` | src/calc_indicators.py:63-72 | the reference info is that of the references |
| `Indicators.IndicatorCalculator.CalculateLotActivity` | src/calc_indicators.py:105-164 | None exactly when nothing is found; otherwise a new result holding the LOT's indicators |
| `Indicators.IndicatorCalculator.CalculateOrgActivity` | src/calc_indicators.py:166-208 | None exactly when nothing is found; otherwise a new result holding the organisation's indicators |
| `Indicators.IndicatorCalculator.Calculate` | src/calc_indicators.py:74-103 | the results are the per-LOT or per-activity results |
| `Indicators.IndicatorCalculator.GetSortedIndicators` | src/calc_indicators.py:210-227 | a permutation of the indicators, sorted by display order and stable for ties |
| `Flat.FoldChar` | src/flat_loader.py:89-94 | the decomposition keeps only ASCII characters |
| `Flat.Fold` | src/flat_loader.py:89-94 | the folded text is ASCII |
| `Flat.FoldAscii` | src/flat_loader.py:89-94 | ASCII text folds to itself |
| `Flat.SlugifyShape` | src/flat_loader.py:89-94 | a slug has only A-Z, 0-9 and `_`, does not start or end with `_`, and never holds `__` |
| `Flat.SlugifyIdempotent` | src/flat_loader.py:89-94 | slugifying a slug gives it back |
| `Flat.PosteCodeShape` | src/flat_loader.py:97-102 | a poste code is `P_` followed by a slug |
| `Flat.PosteCodeTravaux` | src/flat_loader.py:97-102 | "Travaux" gives "P_TRAVAUX" |
| `Flat.PosteCodeFileEau` | src/flat_loader.py:97-102 | "File eau" gives "P_FILE_EAU" |
| `Flat.NodeIdKindsDiffer` | src/flat_loader.py:105-110 | ORG, LOT and ENT ids never coincide |
| `Flat.NodeIdLotSame` | src/flat_loader.py:109-110 | two LOT ids are equal exactly when the names have the same slug |
| `Flat.NodeIdEntInjective` | src/flat_loader.py:105-106 | for activities without `_`, equal ENT ids mean equal activities and lot slugs |
| `Flat.IndicatorCodeKnown` | src/flat_loader.py:113-118 | a known name gets one of the four KPI codes, whatever its spacing and case |
| `Flat.IndicatorCodeGenerated` | src/flat_loader.py:113-118 | any other name gets `IND_` and its slug, never a KPI code |
| `Flat.IndicatorCodeExample` | src/flat_loader.py:113-118 | " Nombre de branchements" gives "NB_BRANCHEMENTS" |
| `Flat.ClassifiedPartition` | src/flat_loader.py:257-268 | each row goes to exactly one of the three groups, and the groups together are the rows |
| `Flat.FlatLoader.ClassifyRows` | src/flat_loader.py:255-279 | the groups are the classified rows, with one warning per unknown category and no new error |
| `Flat.FlatLoader.AppendUnknownCategories` | src/flat_loader.py:271-276 | one unknown-category warning per category, in order |
| `Flat.SheetIssuesSpec` | src/flat_loader.py:205-209 | one issue per missing sheet, none when DATA and TEXTE_RAPPORT are both there |
| `Flat.FlatLoader.ValidateSheets` | src/flat_loader.py:205-209 | appends the sheet issues to the errors |
| `Flat.MissingDataColumnsSpec` | src/flat_loader.py:211-216 | the missing columns are exactly the absent required ones, each once, sorted |
| `Flat.ColumnIssuesNone` | src/flat_loader.py:211-216 | no issue exactly when every required column is there |
| `Flat.ColumnIssuesNames` | src/flat_loader.py:211-216 | at most one issue, on DATA, naming the missing columns |
| `Flat.FlatLoader.ValidateFlatColumns` | src/flat_loader.py:211-216 | appends the column issue to the errors |
| `Flat.FirstOrganisationSpec` | src/flat_loader.py:288-292 | the organisation name comes from the first row that has one |
| `Flat.OrgTreeOutcome` | src/flat_loader.py:284-329 | no rows give an empty tree; it fails exactly when no row names the organisation; otherwise the first node is the ORG root with the first name |
| `Flat.OrgTreeLots` | src/flat_loader.py:304-316 | the LOTs are the lots that have an entity, sorted and each once |
| `Flat.OrgTreeEnts` | src/flat_loader.py:318-327 | there is one ENT per lot and activity found in the rows, and no other |
| `Flat.OrgTreeShape` | src/flat_loader.py:284-329 | the root comes first, and every ENT hangs under its LOT |
| `Flat.BuildOrgTree` | src/flat_loader.py:284-329 | the loops build the tree `OrgTree` describes |
| `Flat.DropDuplicateKeysSpec` | src/flat_loader.py:404 | keeps one row per key, from the input, losing no key |
| `Flat.PostesL2RefOutcome` | src/flat_loader.py:389-405 | no rows give an empty table; it fails exactly when no row has both a category and a poste |
| `Flat.PostesL2RefRows` | src/flat_loader.py:389-405 | each key once, each row numbered by its poste's rank in its category, and every row's key present |
| `Flat.PostesL2RefComplete` | src/flat_loader.py:389-405 | when categories have distinct codes, no row is dropped as a duplicate |
| `Flat.BuildPostesL2Ref` | src/flat_loader.py:389-405 | the loops build the table `PostesL2Ref` describes |
| `Flat.IndicatorsRefCodes` | src/flat_loader.py:433-462 | one reference per indicator code, in order of first appearance |
| `Flat.IndicatorsRefOrders` | src/flat_loader.py:433-462 | display orders are 1, 2, 3, ... and every scope is BOTH |
| `Flat.IndicatorsRefFirst` | src/flat_loader.py:433-462 | each reference is taken from the first row with its code |
| `Flat.BuildIndicatorsRef` | src/flat_loader.py:433-462 | the loop builds the references `IndicatorsRef` describes |
| `Flat.MaybeTransformCode` | src/flat_loader.py:489-499 | None stays None and a present code stays present |
| `Flat.MaybeTransformCodeMatch` | src/flat_loader.py:489-499 | a code naming a category becomes the first such category's poste code |
| `Flat.MaybeTransformCodeOther` | src/flat_loader.py:489-499 | any other code is stripped |
| `Flat.IterationOrder` | src/flat_loader.py:487-497 | lists the set, each member once |
| `Flat.TransformCodes` | src/flat_loader.py:501 | every TEXTE_RAPPORT code is transformed in place |
| `Flat.SchemaIssueSpec` | src/flat_loader.py:218-229 | a sheet has an issue exactly when some column is missing, and the issue names exactly the missing ones, sorted |
| `Flat.SchemaIssuesNone` | src/flat_loader.py:218-229 | no schema issue exactly when every built sheet has its columns |
| `Flat.CoversBuilt` | src/flat_loader.py:218-229 | only TEXTE_RAPPORT, and the indicator sheets when indicators have no name, can lack columns |
| `Flat.OutputSchemaIssuesNone` | src/flat_loader.py:182-188 | no schema issue exactly when some indicator row is named and TEXTE_RAPPORT has its columns |
| `Flat.IndicatorsRefEmpty` | src/flat_loader.py:433-462 | the indicator references are empty exactly when no indicator row is named |
| `Flat.FlatLoader.ValidateOutputSchemas` | src/flat_loader.py:218-229 | appends the schema issues of every output sheet |
| `Flat.FlatLoader.CheckSchema` | src/flat_loader.py:222-229 | appends one sheet's schema issue |
| `Flat.FlatLoader.BuildSheets` | src/flat_loader.py:163-180 | succeeds exactly when no builder fails, with the sheets built from the rows; errors unchanged, one warning per unknown emission category |
| `Flat.RunBuilders` | src/flat_loader.py:167-174 | the builders' outcome: the first failure in call order, a blank Lot or Catégorie included, or the sheets |
| `Flat.BlankEmissionFails` | src/flat_loader.py:331-342 | an emission row with a blank Lot or Catégorie makes the load fail on `_slugify(None)` |
| `Flat.BlankNameCause` | src/flat_loader.py:331-472 | a blank-name failure comes from an emission row without Lot or Catégorie, a named indicator row without Lot, or an avoided row without Lot |
| `Flat.BlankLotExample` | src/flat_loader.py:335-340 | a "Travaux" row with no Lot makes the load fail |
| `Flat.AnyRow` | src/flat_loader.py:414-420 | true exactly when some row has the property |
| `Flat.FlatLoader.constructor` | src/flat_loader.py:131-135 | no error and no warning yet |
| `Flat.FlatLoader.GetValidationReport` | src/flat_loader.py:197-199 | the errors and the warnings |
| `Flat.FlatLoader.Load` | src/flat_loader.py:137-195 | missing sheets fail first, then missing columns, then a failing builder (a blank Lot or Catégorie included), then the schema check; otherwise the sheets built from the rows. The errors and warnings left behind at each stage: the sheet issues, or the column issues, with the warnings untouched; past validation, one warning per unknown category and, as errors, the schema issues or none |
| `Flat.UnknownCategoryIssues` | src/flat_loader.py:271-276 | one warning per category, in order |
| `ExcelLoad.MissingOfSpec` | src/excel_loader.py:101-128 | the missing names are exactly the required ones not present, each once, sorted |
| `ExcelLoad.NoneMissing` | src/excel_loader.py:101-128 | nothing is missing exactly when everything required is present |
| `ExcelLoad.RequiredSheetsDistinct` | src/excel_loader.py:17-27 | the required sheets are distinct |
| `ExcelLoad.SheetListsWellFormed` | src/excel_loader.py:17-31 | each sheet lists distinct columns, and the sheets are distinct |
| `ExcelLoad.SheetIssuesSpec` | src/excel_loader.py:101-107 | one issue exactly when some required sheet is absent, naming exactly the absent ones, sorted |
| `ExcelLoad.ExcelLoader.ValidateRequiredSheets` | src/excel_loader.py:101-107 | appends the sheet issue to the errors |
| `ExcelLoad.ColumnIssueSpec` | src/excel_loader.py:109-128 | one issue exactly when some column is absent, naming exactly the absent ones, sorted |
| `ExcelLoad.ExcelLoader.ValidateColumns` | src/excel_loader.py:109-128 | the column issue goes to the warnings for an optional sheet and to the errors otherwise |
| `ExcelLoad.InvalidNone` | src/excel_loader.py:139-147 | no invalid value exactly when every non-blank cell is valid |
| `ExcelLoad.OrgTreeRulesSpec` | src/excel_loader.py:134-166 | ORG_TREE passes exactly when it has its columns, valid types and activities, an ORG node and no ENT without activity |
| `ExcelLoad.BareEntCount` | src/excel_loader.py:158-166 | the ENT-without-activity error is there exactly when there is such an ENT, and gives their count |
| `ExcelLoad.EmissionsRulesSpec` | src/excel_loader.py:169-178 | EMISSIONS passes exactly when every non-blank scope is 1, 2 or 3, as a number or a text |
| `ExcelLoad.TexteRulesSpec` | src/excel_loader.py:181-190 | TEXTE_RAPPORT gives warnings only, and none exactly when every activity is EU, AEP or BOTH |
| `ExcelLoad.BusinessRulesParts` | src/excel_loader.py:130-190 | the rules run in order, and a missing column stops the later ones |
| `ExcelLoad.ExcelLoader.ValidateBusinessRules` | src/excel_loader.py:130-190 | appends the rules' errors and warnings |
| `ExcelLoad.SheetNamedName` | src/excel_loader.py:17-31 | a sheet's name reads back as that sheet |
| `ExcelLoad.NameInjective` | src/excel_loader.py:17-31 | distinct sheets have distinct names |
| `ExcelLoad.FirstAbsentAt` | src/excel_loader.py:73-76 | reading stops at the first absent required sheet |
| `ExcelLoad.NoneAbsent` | src/excel_loader.py:73-76 | when none is absent, all are available |
| `ExcelLoad.ColumnIssuesUpToNone` | src/excel_loader.py:73-76 | no column issue exactly when every sheet read has its columns |
| `ExcelLoad.OptionalAbsentWarns` | src/excel_loader.py:79-85 | an absent ICONE sheet gives exactly one warning |
| `ExcelLoad.StoredFrom` | src/excel_loader.py:73-83 | a sheet that was read is stored as read |
| `ExcelLoad.StoredKeeps` | src/excel_loader.py:73-83 | a stored sheet stays stored |
| `ExcelLoad.LoadedFromWorkbook` | src/excel_loader.py:73-83 | after a load, every read required sheet is the workbook's |
| `ExcelLoad.ExcelLoader.ReadRequired` | src/excel_loader.py:73-76 | reads the required sheets up to the first absent one, checking each one's columns |
| `ExcelLoad.ExcelLoader.ReadSheet` | src/excel_loader.py:74-76 | reads and checks one required sheet |
| `ExcelLoad.ExcelLoader.ReadOptional` | src/excel_loader.py:79-85 | reads each present optional sheet and warns for each absent one |
| `ExcelLoad.LoadOutcomeResult` | src/excel_loader.py:88-99 | success comes only with no error and returns the data; a validation failure carries all the errors; earlier errors always fail |
| `ExcelLoad.LoadOutcomeAbsent` | src/excel_loader.py:70-76 | an absent required sheet fails the read, after the sheet issue and the earlier column issues are recorded |
| `ExcelLoad.ExcelLoader.constructor` | src/excel_loader.py:39-49 | no data, no error and no warning |
| `ExcelLoad.ExcelLoader.Load` | src/excel_loader.py:51-99 | the result and the new data, errors and warnings are those of the load outcome |
| `ExcelLoad.ExcelLoader.GetValidationReport` | src/excel_loader.py:192-199 | the errors and the warnings |
| `ExcelLoad.ExcelLoader.GetSheet` | src/excel_loader.py:201-211 | the stored sheet of that name, or None exactly when it is not loaded |
| `ExcelLoad.ExcelLoader.GetAllData` | src/excel_loader.py:213-215 | all the stored data |
| `ExcelLoad.LoadSucceedsWhen` | src/excel_loader.py:51-99 | a fresh load succeeds exactly when every required sheet is there with its columns and the business rules raise no error |
| `ExcelLoad.LoadSucceedsIff` | src/excel_loader.py:51-99 | the same, for the actual sheet lists |
| `ExcelLoad.LoadAndValidate` | src/excel_loader.py:218-234 | returns the data with no error and the warnings, or the load's failure |

## Left out

- Reading and writing files, file existence, the pandas and python-docx I/O, and `save` are left out. The workbook and the template come in as values.
- `Lower` (text.dfy) lowers only A–Z and À–Þ. Python's `str.lower` covers all of Unicode and can lengthen a string ('İ' becomes "i̇"). This limits `CategoryKey`, `NameKey` and `IndicatorCode` for such letters.
- `Fold` (flat_loader.dfy) keeps the base letter of Latin-1 letters only. NFD followed by an ASCII-ignoring encode keeps it for every decomposable letter: 'Č' gives "C" in Python, but the model drops it.
- `Tree.OrganizationTree.GetDepth` and `Tree.OrganizationTree.GetPath` require that the node's parent chain ends. On a cycle of parents the Python loop never ends, and that case is not modelled.
- `Tree.OrganizationTree.GetDescendants`, `Tree.OrganizationTree.GetEntsByActivity`, `Tree.OrganizationTree.GetEntIdsByActivity` and `Tree.OrganizationTree.GetLotActivities` require that no node below the id lies on a cycle. On a cycle, Python's recursion raises RecursionError, and that case is not modelled.
- `Emissions.EmissionCalculator.Calculate` and `Indicators.IndicatorCalculator.Calculate` require a tree with no cycle at all. This is stronger than Python needs when a detached cycle holds no LOT.
- Block indices are natural numbers, so Python's negative list indices are not modelled.
- Hyperlinks, merged cells, headers, footers and pictures already in a template are not modelled. A paragraph is its runs and its alignment.
- TEXTE_RAPPORT codes are optional strings, so `str(code)` of a numeric cell is not modelled.
- Quantities (tCO2e, indicator values) are exact reals, with no floating-point rounding. NaN is a blank cell.
- `format_number`, the KPI conversions and the chart generation are parameters. `_insert_org_charts` gets the rendered chart images, if any, as a list.
- `get_emissions_l2` (calc_emissions.py), `print_tree` (tree.py) and `extract_block_content` (word_blocks.py) are not modelled. They are unused by the report steps modelled here, or only print.
- `_clean_data` (flat_loader.py:235-250) is not modelled: its string stripping, turning "nan" into blank, and numeric coercion are taken as already done on the input rows. pandas reading "NA" as NaN is not modelled either.
- `_build_emissions`, `_build_emissions_l2`, `_build_postes_ref`, `_build_indicators` and `_build_emissions_evitees` (flat_loader.py) are modelled only through the columns they produce, which the schema check inspects. Their row contents are not modelled.
- Messages are structured issues, not formatted strings. A message joining a Python set in iteration order lists the set in some order.
- The in-place `list.sort` of `get_sorted_indicators` is modelled as a stable sort on sequences.
- Cells are blank, a number or a text. Dates, booleans and other cell types are not modelled.
- Exceptions other than the loaders' validation errors are a failure value carrying a reason. These include a builder's KeyError, IndexError, or TypeError on a blank name. A pandas read error is not modelled.
- `Emissions.EmissionCalculator.constructor` takes EMISSIONS rows whose scope is already an int. `_prepare_data`'s `astype(int)` (calc_emissions.py:107-109) is not modelled: it converts '2' and 2.0, truncates 1.5 to 1, and raises ValueError on a blank scope. A blank scope passes the standard loader's scope rule, which drops blanks first.
