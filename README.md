# A Dafny model of the TakeA_REST2 preparation core

TakeA_REST2 prepares input for REST2 replica-exchange runs of GROMACS with
PLUMED. REST2 is replica exchange with solute tempering. The model covers the
pipeline's logic: the text, integer and set computations. The structure
library and the filesystem around them are treated as abstract
collaborators. The pieces are:

- **Temperature ladder and scaling factors** (`TemperatureCalculator`).
  - Ordered parameter checks.
  - A linear or an exponential ladder, over exact reals.
  - The factors lambda = T_ref / T.
  - `VariantScaling` holds the λ rule of the older variants, where T_ref is always the first rung.
- **Temperature controller** (`TemperatureController`, with the range encoding in `AtomRanges`).
  - 1-based solute indices and the reference temperature.
  - The sorted atom list compressed into `n` / `a-b` runs and wrapped at 80 characters.
  - The PLUMED `PARTIAL_TEMPERING` block of each replica.
  - The placeholder substitution in a replica's MDP file.
- **Topology annotators**, two divergent versions.
  - `SoluteSelector` is modules/solute_selector.py. It appends `_` to the atom type of solute atoms, chosen by 0-based atom index.
  - `SoluteSelectorModule` is modules/solute_selector_module.py. It chooses atoms by residue, drops section headers and non-solute atom lines, and can validate a written topology.
- **Proximity analysis** (`StructureAnalyzer`).
  - The target region.
  - Nearby protein residues in one frame, or by occupancy over a trajectory.
  - The solute selection string and the solute selection data.
- **Replica records**, two versions (`ReplicaGenerator`, `ReplicaGeneratorModule`).
  - Per replica: index, temperature, factor and directories.
  - The `-multidir` argument string.
- **Validation framework** (`ValidationFramework`). The configuration, topology-modification, replica-setup, temperature-setup and complete-setup checks. Each collects its errors in order.
- **Configuration managers**, two versions (`ConfigManagerModule`, `ConfigManager`).
  - The defaults merged with the loaded YAML document (`ConfigDict`): a mapping, or in modules/config_manager.py also a list of key/value pairs.
  - Their own validation.
  - Their ladders and factors.
  - Parameter get and set.

There is one Dafny module per source file. Helper modules cover what the
source takes from Python itself:
- `Wrappers`: `Option` and `Result`, for `None` and raised exceptions.
- `PyText`: `str.strip`, `split`, `join`, `replace`, `int()` and `str()` of an integer.
- `PyValue`: values loaded from YAML, their truthiness and comparisons, `dict.get` and indexing.

Objects whose fields the source assigns are classes. Examples are
`SoluteSelector.Selector`, `StructureAnalyzer.Analyzer`,
`ReplicaGenerator.Generator` and `ConfigManager.ConfigManager`. Loops that
accumulate state are methods, proved against a specification function. The
two topology parsers, the range grouping and wrapping, the contact counting
and the validators' error lists work this way. The lemmas then state
properties of those specification functions:
- the range list decodes back to the atom set;
- wrapping only replaces commas by line breaks;
- header lines are never written;
- a rewritten atom line is left alone by a second rewrite;
- the trajectory result with one frame is the static result;
- the differences between the ladder variants.

A topology or other text file is its list of lines, each with its line
terminator, as Python's file iteration yields them.

## Model

| member | source | states |
|---|---|---|
| AtomRanges.Insert | modules/temperature_controller.py:327 | inserting into a sorted list keeps it sorted and adds exactly the one element (multiset) |
| AtomRanges.Sorted | modules/temperature_controller.py:327 | `sorted(atom_indices)` is ascending, of the same length and a permutation of the input |
| AtomRanges.SortedOfDistinct | modules/temperature_controller.py:327 | `sorted()` of distinct indices is strictly increasing |
| AtomRanges.Runs | modules/temperature_controller.py:330-349 | the grouping of a non-empty list emits at least one run, and the last run ends at the last index |
| AtomRanges.RunsStep | modules/temperature_controller.py:334-343 | the next index extends the current run when it is one more than its end, and otherwise closes it and opens a new one |
| AtomRanges.RunsSnoc | modules/temperature_controller.py:334-349 | the runs of one more index, read off the runs before it |
| AtomRanges.RunsOfSorted | modules/temperature_controller.py:327-349 | the runs of a sorted list are well formed, start at its first index and cover exactly its indices |
| AtomRanges.RunsOfDistinctAreMaximal | modules/temperature_controller.py:327-343 | for distinct indices the neighbouring runs of the sorted list are at least two apart, so every run is maximal |
| AtomRanges.RunsOfSortedNoOverlap | modules/temperature_controller.py:327-343 | for distinct indices no run of the sorted list begins where the previous one ends |
| AtomRanges.Tokens | modules/temperature_controller.py:338-349 | one text token per run, in order: `n` for a one-index run, `a-b` otherwise |
| AtomRanges.TokenNoComma | modules/temperature_controller.py:338-349 | a token of non-negative indices holds no comma |
| AtomRanges.ParseTokenOfToken | modules/temperature_controller.py:338-349 | a token of non-negative indices reads back as its run |
| AtomRanges.ParseTokensOfTokens | modules/temperature_controller.py:338-349 | the tokens of any list of non-negative runs read back as those runs |
| AtomRanges.SplitOnJoin | modules/temperature_controller.py:352 | splitting `",".join(tokens)` at commas gives the tokens back when none holds a comma |
| AtomRanges.DecodeRoundTrip | modules/temperature_controller.py:327-352 | decoding the unwrapped list of non-negative indices gives back its runs, and they cover exactly the input indices |
| AtomRanges.FirstRunOfExample | modules/temperature_controller.py:334-343 | the indices 1, 2, 3 form the single run 1-3 |
| AtomRanges.SecondRunOpens | modules/temperature_controller.py:337-343 | index 5 after 1-3 opens a new run |
| AtomRanges.SecondRunOfExample | modules/temperature_controller.py:335-336 | index 6 after 5 extends that run |
| AtomRanges.FormatExample | modules/temperature_controller.py:327-349 | the indices 1, 2, 3, 5, 6, 9 form the runs 1-3, 5-6 and 9 |
| AtomRanges.TokensOfExample | modules/temperature_controller.py:338-349 | those runs are written `1-3`, `5-6`, `9` |
| AtomRanges.FormatExampleText | modules/temperature_controller.py:352 | and joined as `1-3,5-6,9` |
| AtomRanges.WrapInvariant | modules/temperature_controller.py:360-372 | the wrap loop's completed lines followed by its current line re-join with commas to the unwrapped list, and the current line is never empty |
| AtomRanges.WrapFits | modules/temperature_controller.py:360-372 | every line the wrap loop keeps is at most 80 characters, unless it is a single token longer than that |
| AtomRanges.WrapLinesProperties | modules/temperature_controller.py:355-377 | the wrapped lines are not empty, re-join with commas to the unwrapped list (no comma is lost at a break), and each fits or is one long token |
| AtomRanges.AtomListTextShape | modules/temperature_controller.py:323-379 | the result is the placeholder for no indices, the comma-joined runs when they fit in 80 characters, and otherwise lines joined by the line continuation that re-join with commas to the same list |
| AtomRanges.Token | modules/temperature_controller.py:338-349 | `str(start)` or `f"{start}-{end}"`; ParseTokenOfToken proves it reads back as its run |
| AtomRanges.WrapState | modules/temperature_controller.py:360-372 | the wrap loop's completed lines and current line; WrapInvariant states what they re-join to |
| AtomRanges.WrapLines | modules/temperature_controller.py:355-375 | the wrapped lines; WrapLinesProperties states them |
| AtomRanges.AtomListText | modules/temperature_controller.py:313-379 | the `ATOMS=` text; AtomListTextShape and DecodeRoundTrip state it |
| AtomRanges.DecodeAtomList | modules/temperature_controller.py:338-352 | reading a comma-joined range list back into runs, the independent partner of the encoding; DecodeRoundTrip connects them |
| TemperatureController.Trunc | modules/temperature_controller.py:233 | Python's `int()` of a float truncates toward zero |
| TemperatureController.Controller.constructor | modules/temperature_controller.py:36-57 | the fields are the replicas and their temperatures and factors in order; `T_ref` is the minimum temperature; the solute indices are present exactly when the key is, each index plus one, in the same order |
| TemperatureController.Controller.Create | modules/temperature_controller.py:43-47 | an empty replica list makes `min()` raise `ValueError`; otherwise the controller holds each replica's temperature and scaling factor in order, `T_ref` is the minimum of the temperatures, and the solute indices are the stored 0-based indices plus one when `solute_atoms` is present and None otherwise |
| TemperatureController.Controller.FormatAtomList | modules/temperature_controller.py:313-379 | the loop computes the encoding `AtomRanges.AtomListText` |
| TemperatureController.Controller.AppendRange | modules/temperature_controller.py:338-349 | closing a run appends exactly its token: `str(start)` for a single index, `start-end` otherwise |
| TemperatureController.Controller.AtomsField | modules/temperature_controller.py:296-299 | the `ATOMS=` value is the placeholder when the solute indices are missing or empty, otherwise their range list `AtomListText` |
| TemperatureController.Controller.GroupRanges | modules/temperature_controller.py:330-349 | the grouping loop emits one token per run of consecutive indices as the loop forms them (`Tokens(Runs(sortedIndices))`), duplicates included; each run is maximal when the indices are distinct (`AtomRanges.RunsOfDistinctAreMaximal`) |
| TemperatureController.Controller.WrapRanges | modules/temperature_controller.py:355-375 | the wrap loop computes the wrapped lines `AtomRanges.WrapLines` |
| TemperatureController.Controller.PartialTemperingCommand | modules/temperature_controller.py:293-294 | the block fails with `IndexError` exactly when the replica index is outside either list (Python indexing) |
| TemperatureController.Controller.CustomizeMdp | modules/temperature_controller.py:229-247 | customising fails with `IndexError` exactly when the replica has no factor; otherwise the text is the replica header (index, temperature, factor, time and step count) followed by the template with both placeholders substituted |
| TemperatureController.Controller.PartialTemperingFields | modules/temperature_controller.py:293-309 | every replica's block has `TEMP=` the reference temperature and `LAMBDA=` its own factor; `ATOMS=` is the placeholder when there are no solute atoms and their range list otherwise |
| TemperatureController.Controller.PartialTemperingSameTemp | modules/temperature_controller.py:302-309 | two replicas' blocks differ only through their factors |
| TemperatureController.Controller.CustomizeMdpReplacesPlaceholders | modules/temperature_controller.py:236-247 | the text is the header followed by the substituted template, which holds neither placeholder when the temperature text is non-empty and shares no character with `TEMP_PLACEHOLDER`; a template without placeholders is kept as it is |
| TemperatureController.SubstitutedBodyClean | modules/temperature_controller.py:236-237 | after both substitutions neither placeholder is left in the template |
| TemperatureController.SubstitutedBody | modules/temperature_controller.py:236-237 | the template with every `TEMP_PLACEHOLDER` and then every `NSTEPS_PLACEHOLDER` replaced; SubstitutedBodyClean states what it leaves out |
| TemperatureController.NSteps | modules/temperature_controller.py:231-233 | `int(production_time_ns * 1000 / 0.002)`, the step count; its truncation is stated by Trunc |
| TemperatureController.TemperingBlock | modules/temperature_controller.py:302-309 | the PLUMED block around its three values; PartialTemperingFields states which values each replica gets |
| TemperatureController.MdpHeader | modules/temperature_controller.py:240-245 | the replica comment header; CustomizeMdp states its values |
| TemperatureController.MinUnique | modules/temperature_controller.py:47 | the minimum is the one element that is below every element |
| SoluteSelector.FirstWord | modules/solute_selector.py:150 | the first word of a non-blank line exists and is the first field of its split |
| SoluteSelector.KeptLines | modules/solute_selector.py:130-139 | dropping the two consumed header lines never lengthens the input |
| SoluteSelector.Selector.constructor | modules/solute_selector.py:35-55 | the selector keeps the structure data it was given, and its solute residues are the union of target and nearby residues |
| SoluteSelector.Selector.Rest2TopologySummary | modules/solute_selector.py:238-252 | the summary reports the target, nearby and solute residue sets and the atom counts; the solute residues contain both sets and number at least the targets and at most targets plus nearby |
| SoluteSelector.Selector.GetTargetResidueIds | modules/solute_selector.py:57-70 | without a universe the nearby residues are returned; otherwise the result is the target-residue scan, including its `IndexError` |
| SoluteSelector.Selector.Create | modules/solute_selector.py:35-55 | construction succeeds without a universe, and with one it succeeds exactly when the target-residue scan does, failing with the scan's error |
| SoluteSelector.Selector.ParseAndModifyTopology | modules/solute_selector.py:99-173 | the written lines and statistics of the one-pass loop are those of the parser's fold over the input lines |
| SoluteSelector.Selector.NameMoleculeOfLine | modules/solute_selector.py:147-156 | the loop's molecule-naming branch does what the fold's naming step does |
| SoluteSelector.Selector.WriteAtomLine | modules/solute_selector.py:159-171 | the loop's write branch counts, rewrites and appends as the fold's write step does |
| SoluteSelector.SuffixedFieldsAreWords | modules/solute_selector.py:227-231 | suffixing the atom type with `_` keeps every field a nonempty word without spaces |
| SoluteSelector.ModifiedFields | modules/solute_selector.py:211-231 | a rewritten atom line splits back into the same fields, in order, with only the atom type suffixed |
| SoluteSelector.ModifyIdempotent | modules/solute_selector.py:221-231 | rewriting a rewritten line leaves it alone, because its type already ends in `_` |
| SoluteSelector.NumberLineIsNoHeader | modules/solute_selector.py:130-142 | a line starting with a sign or a digit is neither header and opens no section |
| SoluteSelector.ModifiedNotHeader | modules/solute_selector.py:130-142 | a rewritten atom line is not a header and does not start with `[` |
| SoluteSelector.CloseSectionsFacts | modules/solute_selector.py:142-144 | a stripped line starting with `[` but not with `[ atoms ]` clears both section flags; every other line leaves the state unchanged; output, counters and molecule are never touched |
| SoluteSelector.NameMoleculeFacts | modules/solute_selector.py:147-156 | naming a molecule writes and counts nothing and leaves the section flags alone |
| SoluteSelector.WriteCopied | modules/solute_selector.py:159-171 | a line that is not an atom line in scope is copied unchanged |
| SoluteSelector.WriteCounted | modules/solute_selector.py:159-171 | an atom line in scope that is not rewritten is counted and copied |
| SoluteSelector.WriteRewritten | modules/solute_selector.py:159-171 | an atom line that is rewritten counts as one atom and one modified atom, and its rewrite is written |
| SoluteSelector.WriteLineFacts | modules/solute_selector.py:159-171 | writing changes only the output and the two counters; outside an atoms section it copies the line and counts nothing |
| SoluteSelector.WriteLineOutput | modules/solute_selector.py:159-171 | writing appends exactly one line, the input or its rewrite, and counts at most one atom and no more modified than counted |
| SoluteSelector.StepHeader | modules/solute_selector.py:130-139 | a consumed header line writes nothing and counts nothing |
| SoluteSelector.StepNonHeader | modules/solute_selector.py:142-171 | any other line closes sections, may name the molecule, and is then written |
| SoluteSelector.StepOutput | modules/solute_selector.py:130-171 | one iteration writes nothing for a header and otherwise one line, the input or its rewrite, with the counters monotone |
| SoluteSelector.ParseOutput | modules/solute_selector.py:125-173 | the output has one line per non-header input line, in order, each the input or its rewrite, and no more atoms are modified than counted |
| SoluteSelector.NameMoleculeScope | modules/solute_selector.py:147-156 | naming a molecule keeps the scope invariant |
| SoluteSelector.CloseSectionsScope | modules/solute_selector.py:142-144 | closing sections keeps the scope invariant |
| SoluteSelector.WriteLineScope | modules/solute_selector.py:159-171 | writing a line keeps the scope invariant |
| SoluteSelector.StepScope | modules/solute_selector.py:130-171 | every iteration keeps the scope invariant |
| SoluteSelector.ScopeOfParse | modules/solute_selector.py:147-156 | without a molecule name every molecule is in scope and the target is the last molecule found; with a name, only that molecule is in scope |
| SoluteSelector.StepWithoutHeader | modules/solute_selector.py:130-171 | outside every section a non-header line is copied, opens no section and counts no atom |
| SoluteSelector.ParseWithoutHeaders | modules/solute_selector.py:125-173 | input without either header is written back unchanged and counts no atom |
| SoluteSelector.OutputHasNoHeaders | modules/solute_selector.py:130-171 | the written topology holds neither header line |
| SoluteSelector.StepKeepsNoHeaders | modules/solute_selector.py:130-171 | one iteration adds no header to header-free output |
| SoluteSelector.SecondPassChangesNothing | modules/solute_selector.py:125-173 | parsing the written topology again gives it back unchanged and modifies no atom |
| SoluteSelector.FailurePersists | modules/solute_selector.py:65-69 | once a target lookup raises, the later targets do not change the result |
| SoluteSelector.TargetResiduesOfIndices | modules/solute_selector.py:65-69 | for non-negative target indices the scan cannot fail, and a residue is a target residue exactly when some target below the atom count has it |
| SoluteSelector.ModifyAtomLine | modules/solute_selector.py:199-231 | the rewrite of one atom line, or none; ModifiedFields and ModifyIdempotent state it |
| SoluteSelector.IsAtomLine | modules/solute_selector.py:159-160 | an atom line in scope: inside an atoms section of the target molecule, neither a comment, blank nor a `[` line; WriteCounted states its use |
| SoluteSelector.CloseSections | modules/solute_selector.py:142-144 | a `[` line other than `[ atoms ]` clears both section flags and any other line changes nothing; CloseSectionsFacts states it |
| SoluteSelector.NameMolecule | modules/solute_selector.py:147-156 | the molecule naming step; NameMoleculeFacts and ScopeOfParse state it |
| SoluteSelector.WriteLine | modules/solute_selector.py:159-171 | the write step; WriteLineFacts and WriteLineOutput state it |
| SoluteSelector.Step | modules/solute_selector.py:130-171 | one iteration of the loop; StepHeader, StepNonHeader and StepOutput state it |
| SoluteSelector.Parse | modules/solute_selector.py:125-173 | the fold over the lines; ParseOutput and SecondPassChangesNothing state it |
| SoluteSelector.TargetResidues | modules/solute_selector.py:65-69 | the target-residue scan; TargetResiduesOfIndices and FailurePersists state it |
| SoluteSelectorModule.ExtractResidueId | modules/solute_selector_module.py:166-179 | the first of the three patterns that matches anywhere decides the residue number, and there is none exactly when no pattern matches |
| SoluteSelectorModule.ParseAtomFields | modules/solute_selector_module.py:192-201 | the fields are read exactly when there are at least three and `int()` accepts the first and third; the type is the second field |
| SoluteSelectorModule.ModifyAtomLine | modules/solute_selector_module.py:181-219 | a line is dropped exactly when it parses and its residue is not a solute residue; a kept line grows by at most one character |
| SoluteSelectorModule.Selector.constructor | modules/solute_selector_module.py:24-44 | the selector keeps the structure data it was given, and its solute residues are the union of target and nearby residues |
| SoluteSelectorModule.Selector.GetTargetResidueIds | modules/solute_selector_module.py:46-53 | the loop computes the target-residue specification, including the `AttributeError` without a universe and the `IndexError` |
| SoluteSelectorModule.Selector.Create | modules/solute_selector_module.py:24-44 | construction succeeds exactly when the target-residue lookup does, and fails with its error |
| SoluteSelectorModule.Selector.ParseAndModifyTopology | modules/solute_selector_module.py:84-154 | the lines the one-pass loop writes are those of the parser's fold over the input lines |
| SoluteSelectorModule.Selector.EnterSectionOf | modules/solute_selector_module.py:109-121 | the header branch sets the flags as the fold's section step does |
| SoluteSelectorModule.Selector.NameMoleculeOfLine | modules/solute_selector_module.py:124-130 | the moleculetype branch names the molecule as the fold's naming step does |
| SoluteSelectorModule.Selector.WriteAtomsSectionLine | modules/solute_selector_module.py:133-149 | the atoms-section branch writes what the fold's atoms-section step writes |
| SoluteSelectorModule.Selector.ClassifyLine | modules/solute_selector_module.py:312-322 | the counting loop's branch for one line: opening, closing, counted, suffixed |
| SoluteSelectorModule.Selector.ValidateTopologyModification | modules/solute_selector_module.py:301-327 | the validator answers true exactly when the file exists and the counting fold finds a modified atom |
| SoluteSelectorModule.FailurePersists | modules/solute_selector_module.py:49-52 | once a target lookup raises, the later targets do not change the result |
| SoluteSelectorModule.TargetResiduesSpec | modules/solute_selector_module.py:46-53 | the lookup succeeds exactly when there is no target or every target index is valid Python indexing into the universe; then it yields exactly the target atoms' residues, and otherwise raises `AttributeError` without a universe and `IndexError` with one |
| SoluteSelectorModule.FirstMatchLeftmost | modules/solute_selector_module.py:175 | `re.search` finds the leftmost match, and finding none means the pattern matches nowhere |
| SoluteSelectorModule.ExtractWithoutSemicolon | modules/solute_selector_module.py:168-179 | a comment without `;` names no residue |
| SoluteSelectorModule.ExtractOfResidueComment | modules/solute_selector_module.py:167-177 | the documented format `; residue 123 ALA` names residue 123 |
| SoluteSelectorModule.ExtractOfNumberComment | modules/solute_selector_module.py:167-177 | the documented format `; 123 ALA` names residue 123 when no further `;` follows |
| SoluteSelectorModule.ModifyAtomLineUnchanged | modules/solute_selector_module.py:195-219 | too few fields, a field `int()` rejects, or a solute atom whose type already ends in `_` leave the line unchanged |
| SoluteSelectorModule.ModifyAtomLineSuffixes | modules/solute_selector_module.py:209-213 | a solute atom whose type lacks `_` gets exactly one `_` inserted after the first occurrence of the type text, everything else in place |
| SoluteSelectorModule.StepHeader | modules/solute_selector_module.py:109-121 | a header writes nothing and sets the two section flags from its name; any other name takes the molecule out of scope |
| SoluteSelectorModule.StepMoleculeLine | modules/solute_selector_module.py:124-130 | a data line of a moleculetype section is consumed, names the current molecule and brings it into scope when it is the one asked for or none was asked for |
| SoluteSelectorModule.StepDropsNonSoluteAtom | modules/solute_selector_module.py:142-146 | in scope, an atom line of a residue outside the solute is dropped and nothing else changes |
| SoluteSelectorModule.StepWritesSoluteAtom | modules/solute_selector_module.py:142-146 | in scope, an atom line of a solute residue is written once, as rewritten |
| SoluteSelectorModule.StepResidueComment | modules/solute_selector_module.py:134-141 | in scope, a comment mentioning `residue` is kept exactly when it names a solute residue |
| SoluteSelectorModule.StepKeepsOtherLines | modules/solute_selector_module.py:147-149 | in scope, blank lines and other comments are kept as they are |
| SoluteSelectorModule.StepOutsideSections | modules/solute_selector_module.py:150-152 | outside the sections of interest a non-header line passes through unchanged |
| SoluteSelectorModule.StepAppends | modules/solute_selector_module.py:105-152 | one iteration keeps what was written and appends at most one line, none for a header |
| SoluteSelectorModule.ParseOutputLength | modules/solute_selector_module.py:105-154 | the output has at most one line per non-header input line, and the two section flags are never both set |
| SoluteSelectorModule.ParseWithoutHeaders | modules/solute_selector_module.py:105-154 | input without section headers is written back unchanged and never enters a section |
| SoluteSelectorModule.CountInSection | modules/solute_selector_module.py:312-322 | inside the counted section, a modified atom is counted exactly when one comes before the closing `[` line |
| SoluteSelectorModule.CountStepInSection | modules/solute_selector_module.py:312-322 | one line of the counted section is a modified atom, closes the section, or passes the question to the next line |
| SoluteSelectorModule.CountFindsModifiedAtom | modules/solute_selector_module.py:308-327 | the validator's count is positive exactly when the section opened by the first `[ ... atoms ... ]` line holds a suffixed atom before the next other `[` line |
| SoluteSelectorModule.CountsBounded | modules/solute_selector_module.py:316-322 | the validator never counts more modified atoms than atoms |
| SoluteSelectorModule.OtherHeaderDiffers | modules/solute_selector_module.py:118-121 | a header other than `moleculetype` and `atoms` is dropped here, while the annotator of modules/solute_selector.py writes it |
| SoluteSelectorModule.NonSoluteAtomDiffers | modules/solute_selector_module.py:204-205 | an atom of a non-solute residue in scope is dropped here, while the annotator of modules/solute_selector.py writes it |
| SoluteSelectorModule.MatchAt | modules/solute_selector_module.py:168-175 | the number one comment pattern captures at a position, case-insensitively; ExtractOfResidueComment and ExtractOfNumberComment state instances |
| SoluteSelectorModule.FirstMatch | modules/solute_selector_module.py:175 | the leftmost match position from a start, as `re.search` scans; FirstMatchLeftmost states it |
| SoluteSelectorModule.Search | modules/solute_selector_module.py:175-177 | the number captured at the leftmost match; ExtractResidueId states how the patterns are tried |
| SoluteSelectorModule.Step | modules/solute_selector_module.py:105-152 | one iteration of the loop; the Step lemmas state each branch |
| SoluteSelectorModule.Parse | modules/solute_selector_module.py:105-154 | the fold over the lines; ParseOutputLength and ParseWithoutHeaders state it |
| SoluteSelectorModule.CountFrom | modules/solute_selector_module.py:312-322 | the counting fold; CountFindsModifiedAtom and CountsBounded state it |
| SoluteSelectorModule.TargetResidues | modules/solute_selector_module.py:46-53 | the residue lookup of every target; TargetResiduesSpec states it |
| TemperatureCalculator.CalculateTemperatureLadder | utils/temperature_calculator.py:24-63 | a ladder is computed only for at least one replica; it has one temperature per replica and starts at `T_min` |
| TemperatureCalculator.Min | utils/temperature_calculator.py:86 | `min(temperatures)` is an element of the list and no larger than any element |
| TemperatureCalculator.CalculateScalingFactors | utils/temperature_calculator.py:66-91 | the factors exist exactly for a non-empty list of positive temperatures; each is `T_ref / T` in (0, 1], equal to 1 exactly at the lowest temperature; the two errors are told apart |
| TemperatureCalculator.FactorBounds | utils/temperature_calculator.py:89 | with a positive reference no larger than any temperature, every factor is in (0, 1], is 1 exactly at the reference and scales its temperature back to the reference |
| TemperatureCalculator.CalculateTemperatureAndScaling | utils/temperature_calculator.py:94-113 | the pair is the ladder and the factors of that ladder, and a ladder error is passed on unchanged |
| TemperatureCalculator.ValidateTemperatureParameters | utils/temperature_calculator.py:116-147 | validation returns true exactly for positive `T_min`, `T_max` above it, at least one replica and a known method, and raises otherwise |
| TemperatureCalculator.LadderErrorOrder | utils/temperature_calculator.py:42-61 | the ladder's checks apply in the source's order: `T_min`, then `T_max`, then the replica count, then the method |
| TemperatureCalculator.SingleReplicaAnyMethod | utils/temperature_calculator.py:50-51 | one replica gives `[T_min]` whatever the method name |
| TemperatureCalculator.LinearLadderShape | utils/temperature_calculator.py:54-55 | the linear ladder runs from `T_min` to `T_max` in equal steps of `(T_max - T_min) / (n - 1)` and strictly increases |
| TemperatureCalculator.LinearRungs | utils/temperature_calculator.py:55 | rung `i` of the linear ladder is `T_min + i * (T_max - T_min) / (n - 1)` |
| TemperatureCalculator.ExponentialLadderShape | utils/temperature_calculator.py:56-59 | with the ratio whose `(n - 1)`-th power is `T_max / T_min`, the exponential ladder runs from `T_min` to `T_max`, each rung the previous times the ratio, strictly increasing |
| TemperatureCalculator.ExponentialNeighbours | utils/temperature_calculator.py:59 | for a ratio above one, each exponential rung is the previous one times the ratio and above it |
| TemperatureCalculator.LinearLadder | utils/temperature_calculator.py:54-55 | the evenly spaced ladder; LinearLadderShape and LinearRungs state it |
| TemperatureCalculator.ExponentialLadder | utils/temperature_calculator.py:56-59 | `T_min * ratio ** i` for each rung; ExponentialLadderShape and ExponentialNeighbours state it |
| TemperatureCalculator.Pow | utils/temperature_calculator.py:59 | `ratio ** i` for a whole exponent; ExponentialNeighbours uses its step |
| TemperatureCalculator.TemperatureAndScalingValid | utils/temperature_calculator.py:94-113 | for valid parameters both lists exist with one entry per replica, and the factors are in (0, 1] with the first equal to 1 |
| TemperatureCalculator.ValidatorAgreesWithLadder | utils/temperature_calculator.py:42-61 | for any replica count but one, validation succeeds exactly when the ladder does; for one replica an unknown method is rejected by validation yet accepted by the ladder |
| VariantScaling.FactorsFromFirst | modules/replica_generator_module.py:61-63 | factors relative to the first rung: `IndexError` on an empty ladder, `ZeroDivisionError` exactly when some rung is zero, otherwise `T_0 / T_i` with the first equal to 1 |
| VariantScaling.FactorsFromFirstAgree | modules/replica_generator_module.py:62 | on a positive, strictly increasing ladder the first rung is the lowest, so these factors are the ones the temperature calculator gives |
| VariantScaling.StepLadder | modules/config_manager_module.py:297-300 | the ladder built by adding `i * step` starts at `T_min` and rises by `step` between neighbours |
| VariantScaling.StepLadderIsLinear | modules/config_manager_module.py:295-300 | the stepped ladder with `step = (T_max - T_min) / (n - 1)` is the calculator's linear ladder |
| VariantScaling.StepLadderEndsAtTMax | modules/config_manager_module.py:298-300 | the stepped ladder ends at `T_max` |
| VariantScaling.Reals | modules/config_manager_module.py:297-307 | configuration values carrying the ladder's reals, one per rung |
| VariantScaling.DivideAll | modules/config_manager_module.py:321-324 | the factor loop succeeds exactly when every division `T_ref / T` does, and then keeps one quotient per rung |
| VariantScaling.ValueFactors | modules/config_manager_module.py:318-326 | an empty ladder raises `IndexError`; otherwise every rung is divided into the first |
| VariantScaling.ValueFactorsOfReals | modules/config_manager_module.py:318-326 | on real rungs the value-level factors are the real factors, with the same error |
| VariantScaling.DivideAllError | modules/config_manager_module.py:323 | dividing numbers can fail only with `ZeroDivisionError` |
| VariantScaling.DivideAllFirstFailure | modules/config_manager_module.py:322-324 | the first failing division decides the error of the whole loop |
| ReplicaGenerator.ReplicaNames | modules/replica_generator.py:248 | one directory name per replica, none for a count below one |
| ReplicaGenerator.MultidirString | modules/replica_generator.py:248 | `" ".join` of the replica names; MultidirSplit proves it splits back into them |
| ReplicaGenerator.PathJoin | modules/replica_generator.py:149-151 | `Path(base) / name` as text; ReplicaDirsDistinct proves distinct names give distinct paths |
| ReplicaGenerator.Generator.constructor | modules/replica_generator.py:38-54 | the generator keeps the configured parameters and starts with empty ladders |
| ReplicaGenerator.Generator.CalculateTemperatureLadder | modules/replica_generator.py:59-67 | on success both lists are the calculator's ladder and factors; a calculator error is wrapped and leaves the lists as they were |
| ReplicaGenerator.Generator.Create | modules/replica_generator.py:38-57 | construction succeeds exactly when the calculator does, holding its ladder and factors, and otherwise fails with the wrapped error |
| ReplicaGenerator.Generator.GetTemperatureLadder | modules/replica_generator.py:69-71 | the getter returns the ladder it holds |
| ReplicaGenerator.Generator.GetScalingFactors | modules/replica_generator.py:73-75 | the getter returns the factors it holds |
| ReplicaGenerator.Generator.GetReplicaData | modules/replica_generator.py:136-161 | one record per replica, in index order, with that replica's temperature, factor and `replica_i`, `input` and `output` directories |
| ReplicaGenerator.Generator.GetMultidirString | modules/replica_generator.py:241-248 | the string is the space-joined replica names, and it splits back into those names, in order |
| ReplicaGenerator.ReplicaNameInjective | modules/replica_generator.py:248 | distinct indices give distinct names |
| ReplicaGenerator.ReplicaDirsDistinct | modules/replica_generator.py:149-151 | distinct replicas get distinct directories under the same base |
| ReplicaGenerator.ReplicaNameNoSpace | modules/replica_generator.py:248 | a replica name is a nonempty word without spaces |
| ReplicaGenerator.MultidirSplit | modules/replica_generator.py:248 | splitting the joined string gives back the replica names, which are pairwise distinct |
| ReplicaGeneratorModule.ModuleLadder | modules/replica_generator_module.py:46-59 | a ladder of this variant has one temperature per replica |
| ReplicaGeneratorModule.ModuleLadderAndFactors | modules/replica_generator_module.py:46-63 | on success the ladder has one nonzero rung per replica and each factor is the first rung divided by that rung, the first equal to 1 |
| ReplicaGeneratorModule.Generator.constructor | modules/replica_generator_module.py:25-41 | the generator keeps the configured parameters and starts with empty ladders |
| ReplicaGeneratorModule.Generator.CalculateTemperatureLadder | modules/replica_generator_module.py:46-63 | any ladder error leaves both lists alone; otherwise the ladder is assigned, and the factors too unless `FactorsFromFirst` fails (`IndexError` or `ZeroDivisionError`) |
| ReplicaGeneratorModule.Generator.Create | modules/replica_generator_module.py:25-44 | construction succeeds exactly when ladder and factors do, holding both, and otherwise fails with that error |
| ReplicaGeneratorModule.Generator.GetTemperatureLadder | modules/replica_generator_module.py:65-67 | the getter returns the ladder it holds |
| ReplicaGeneratorModule.Generator.GetScalingFactors | modules/replica_generator_module.py:69-71 | the getter returns the factors it holds |
| ReplicaGeneratorModule.Generator.GetReplicaData | modules/replica_generator_module.py:146-172 | one record per replica, in index order, with its temperature, factor and directories, plus the temperature range and method |
| ReplicaGeneratorModule.Generator.GetMultidirString | modules/replica_generator_module.py:252-259 | the string is the space-joined replica names, the same as the newer generator's, and splits back into them, in order |
| ReplicaGeneratorModule.SingleReplicaFirst | modules/replica_generator_module.py:48-49 | one replica gives `[T_min]` whatever the method |
| ReplicaGeneratorModule.OtherMethodsAreExponential | modules/replica_generator_module.py:53 | every method name other than `linear` is treated as exponential |
| ReplicaGeneratorModule.OnlyExponentialChecksTMin | modules/replica_generator_module.py:50-59 | the linear ladder is always computed; the exponential ladder fails exactly for a non-positive `T_min` |
| ReplicaGeneratorModule.ZeroSingleReplicaDivides | modules/replica_generator_module.py:48-63 | one replica at `T_min = 0` passes the ladder and then divides by zero in the factors |
| ReplicaGeneratorModule.AgreesWithCalculatorOnValidInput | modules/replica_generator_module.py:46-63 | on parameters the calculator accepts, this variant gives the calculator's ladder and factors |
| ReplicaGeneratorModule.DivergesOnUnknownMethod | modules/replica_generator_module.py:53-59 | an unknown method is rejected by the calculator but gives the exponential ladder here |
| StructureAnalyzer.TargetRegion | modules/structure_analyzer_module.py:89-101 | the target atoms are the selection's atoms exactly when the selection is accepted and non-empty; otherwise the wrapped error says which of the two failed |
| StructureAnalyzer.SetMin | modules/structure_analyzer_module.py:272 | the least element of a non-empty set of residue numbers |
| StructureAnalyzer.SortedSet | modules/structure_analyzer_module.py:272 | `sorted(nearby_resids)` holds exactly the set's members, once each, in strictly ascending order |
| StructureAnalyzer.Indices | modules/structure_analyzer_module.py:360-362 | `atoms.indices`: the index of every atom, in order |
| StructureAnalyzer.Analyzer.constructor | modules/structure_analyzer_module.py:40-51 | the analyzer holds the loaded system, whether a trajectory was given, and no results yet |
| StructureAnalyzer.Analyzer.IdentifyTargetRegion | modules/structure_analyzer_module.py:79-101 | the result is the target-region specification, and the atoms are stored only on success |
| StructureAnalyzer.Analyzer.ContactsInFrame | modules/structure_analyzer_module.py:121-133 | the nested loops collect exactly the frame's contact residues |
| StructureAnalyzer.Analyzer.FindNearbyResiduesStatic | modules/structure_analyzer_module.py:103-135 | the static result is the contact set of the current frame |
| StructureAnalyzer.Analyzer.CountFrame | modules/structure_analyzer_module.py:180-182 | each residue contacted in the frame gains exactly one, the others keep their counts |
| StructureAnalyzer.Analyzer.FilterByOccupancy | modules/structure_analyzer_module.py:184-191 | a counted residue is kept exactly when its count divided by the frame count reaches the threshold |
| StructureAnalyzer.Analyzer.FindNearbyResiduesTrajectory | modules/structure_analyzer_module.py:137-191 | without a trajectory it fails before any frame; otherwise the result is the occupancy-filtered contact specification over all frames |
| StructureAnalyzer.Analyzer.BuildTargetParts | modules/structure_analyzer_module.py:263-264 | the parts loop gives one `resid r` part per target residue, in order |
| StructureAnalyzer.Analyzer.BuildSelectionString | modules/structure_analyzer_module.py:258-288 | the string the method builds is the selection-string specification |
| StructureAnalyzer.Analyzer.CreateSoluteSelection | modules/structure_analyzer_module.py:245-296 | the solute atoms are the combined selection's, or the fallback selection's when the combined one is rejected |
| StructureAnalyzer.Analyzer.AnalyzeTargetAndEnvironment | modules/structure_analyzer_module.py:193-243 | succeeds exactly when the target region is found, a trajectory exists if one is asked for, and the solute selection succeeds; each failure returns its step's error with the fields stored so far (the target after the region step, the nearby residues after the contact step); on success the results, their counts and the stored fields are those of the specifications |
| StructureAnalyzer.Analyzer.GetSoluteSelectionData | modules/structure_analyzer_module.py:338-364 | given results are used; otherwise stored results are used, and missing ones raise `No analysis results available`; the returned record leaves out the `'universe'` entry and keeps the nearby residues as a set rather than `list(nearby_residues)` |
| StructureAnalyzer.MinExists | modules/structure_analyzer_module.py:272 | a non-empty set of residue numbers has a least element |
| StructureAnalyzer.AtomContactsSpec | modules/structure_analyzer_module.py:124-133 | a residue is contacted by one target atom exactly when some protein atom of it, in another residue, lies within the cutoff |
| StructureAnalyzer.FrameContactsSpec | modules/structure_analyzer_module.py:115-135 | the frame's contacts are exactly the residues of protein atoms within the cutoff of a target atom of another residue |
| StructureAnalyzer.ContactFramesBounds | modules/structure_analyzer_module.py:161-182 | a residue's counter never exceeds the number of frames, and is positive exactly when the residue was ever contacted |
| StructureAnalyzer.TrajectoryNearbySpec | modules/structure_analyzer_module.py:184-191 | a residue is nearby exactly when it was contacted and its occupancy reaches the threshold; a never-contacted residue is never included |
| StructureAnalyzer.TrajectoryNearby | modules/structure_analyzer_module.py:155-191 | the residues whose contact count over the frames reaches the occupancy threshold; TrajectoryNearbySpec states the iff |
| StructureAnalyzer.FrameContacts | modules/structure_analyzer_module.py:115-135 | the residues of one frame within the cutoff of a target atom; FrameContactsSpec states the iff |
| StructureAnalyzer.SelectionString | modules/structure_analyzer_module.py:258-288 | the combined selection string; SelectionForResidueTarget and SelectionForTargetWithoutResidues state its shapes |
| StructureAnalyzer.SoluteSelection | modules/structure_analyzer_module.py:245-296 | the atoms of the combined selection, else of the fallback, else `SelectionFailed`; CreateSoluteSelection is proved equal to it |
| StructureAnalyzer.Nearby | modules/structure_analyzer_module.py:213-220 | the nearby residues of the chosen analysis, trajectory or current frame; AnalyzeTargetAndEnvironment states its use |
| StructureAnalyzer.SingleFrameMatchesStatic | modules/structure_analyzer_module.py:115-135 | with one frame and a threshold in (0, 1], the trajectory result equals the static one |
| StructureAnalyzer.ResidueTargetPartsLackUnderscore | modules/structure_analyzer_module.py:263-273 | no part built from residue numbers contains `_` |
| StructureAnalyzer.CombinedLacks | modules/structure_analyzer_module.py:276-279 | combining parts adds no character beyond `(`, `)`, `or` and spaces |
| StructureAnalyzer.SelectionForResidueTarget | modules/structure_analyzer_module.py:258-288 | with target residues, one `resid r` part per residue, then one sorted nearby part if any; these combined are the string, which never holds the placeholder; a lone part is not parenthesised |
| StructureAnalyzer.CombineTwo | modules/structure_analyzer_module.py:276-277 | two parts are combined as `(a) or (b)` |
| StructureAnalyzer.CombinedWithoutResidues | modules/structure_analyzer_module.py:266-279 | without target residues the combined string is the placeholder alone, or the placeholder or'ed with the nearby part |
| StructureAnalyzer.ReplacePlaceholderIn | modules/structure_analyzer_module.py:282-288 | the placeholder is found and replaced once, the rest kept |
| StructureAnalyzer.SelectionStringReplaces | modules/structure_analyzer_module.py:282-288 | when the combined string holds the placeholder, the selection string is that string with the placeholder replaced by the index list |
| StructureAnalyzer.SelectionForTargetWithoutResidues | modules/structure_analyzer_module.py:266-288 | without target residues the string is `index ...` alone, or `(index ...) or (resid ...)` with the sorted nearby residues |
| StructureAnalyzer.SelectionByIndexAlone | modules/structure_analyzer_module.py:266-288 | without target residues or nearby residues the string is `index ...` |
| StructureAnalyzer.SelectionByIndexWithNearby | modules/structure_analyzer_module.py:266-288 | without target residues but with nearby residues the string is `(index ...) or (resid ...)` |
| ValidationFramework.Len | utils/validation_framework.py:171 | `len()` of a string, list or dictionary is its length, and anything else raises `TypeError` |
| ValidationFramework.RangeCount | utils/validation_framework.py:199 | `range(n)` accepts exactly integers and booleans, runs `max(n, 0)` times, and raises `TypeError` otherwise |
| ValidationFramework.ValidateConfiguration | utils/validation_framework.py:27-73 | the straight-line checks give the configuration issues of the specification |
| ValidationFramework.ValidateTopologyModification | utils/validation_framework.py:140-174 | the method computes the topology issues exactly as written, including the dead length test |
| ValidationFramework.AppendMissingKeys | utils/validation_framework.py:164-167 | the key loop appends one issue per missing required key, in order |
| ValidationFramework.ReplicaDirs | utils/validation_framework.py:199-200 | one directory `replica_i` per replica index, in order |
| ValidationFramework.AppendMissingFiles | utils/validation_framework.py:216-220 | the file loop appends one issue per missing required file, in order |
| ValidationFramework.AppendReplicaIssues | utils/validation_framework.py:200-220 | one replica's checks append its missing directory, or its missing subdirectories and files |
| ValidationFramework.CheckReplicaDirectories | utils/validation_framework.py:198-220 | the replica loop appends each replica's issues in index order |
| ValidationFramework.ValidateReplicaSetup | utils/validation_framework.py:177-229 | the method computes the replica-setup issues of the specification, `TypeError` included |
| ValidationFramework.EntriesIssuesRaised | utils/validation_framework.py:253-265 | once a replica entry raises, the later entries do not matter |
| ValidationFramework.AppendEntryIssues | utils/validation_framework.py:253-265 | one replica entry's checks are appended, or its error is raised |
| ValidationFramework.ValidateTemperatureSetup | utils/validation_framework.py:232-274 | the method computes the temperature-setup issues of the specification |
| ValidationFramework.ValidateCompleteSetup | utils/validation_framework.py:324-374 | the complete validation, `validate_file_paths` included, raises what the parts raise (a `TypeError` of the file paths among them), and otherwise returns the parts' issues in order |
| ValidationFramework.CollectSpec | utils/validation_framework.py:38-73 | a run of checks raises exactly when one of them raises, with that check's error; otherwise it reports exactly the issues its checks report, at most one each |
| ValidationFramework.CollectInOrder | utils/validation_framework.py:38-73 | the issues come out in the order of the checks that report them |
| ValidationFramework.ConfigurationIssuesCollected | utils/validation_framework.py:38-73 | the straight-line validation is the collection of its six checks |
| ValidationFramework.ConfigurationIssueOrder | utils/validation_framework.py:38-73 | at most six issues, in check order, a temperature issue first if there is one |
| ValidationFramework.ConfigurationIssueSource | utils/validation_framework.py:38-73 | when nothing raises, an issue is reported exactly when its own check reports it |
| ValidationFramework.ReplexReported | utils/validation_framework.py:53-54 | `replex` is reported exactly when it is not positive, including when it is missing |
| ValidationFramework.DistanceReported | utils/validation_framework.py:56-57 | `distance_range` is reported exactly when it is not positive, including when it is missing |
| ValidationFramework.OccupancyReported | utils/validation_framework.py:59-61 | the occupancy threshold is reported exactly when it is outside [0, 1]; a missing one defaults to 0.5 and is not reported |
| ValidationFramework.TargetReported | utils/validation_framework.py:63-71 | the target selection is reported exactly when it is falsy, and the target type exactly when it is neither `peptide` nor `small_molecule` |
| ValidationFramework.ConfigurationRaises | utils/validation_framework.py:53-61 | the validation raises exactly when one of its comparisons does, and then with `TypeError` |
| ValidationFramework.TemperatureStepAgrees | utils/validation_framework.py:41-50 | the temperature check reports exactly the calculator's validation error |
| ValidationFramework.TemperatureIssueReported | utils/validation_framework.py:41-50 | for numeric temperature settings, the temperature issue is reported exactly when the calculator rejects them, with its reason |
| ValidationFramework.MissingKeysSpec | utils/validation_framework.py:164-167 | the missing-key issues are exactly the required keys absent from the solute data |
| ValidationFramework.MissingKeysNone | utils/validation_framework.py:164-167 | with every required key present, no key is reported |
| ValidationFramework.TruthyHasLength | utils/validation_framework.py:170-171 | a truthy value with a length has a positive length |
| ValidationFramework.NoSoluteAtomsNeverSelected | utils/validation_framework.py:169-172 | as written, `No solute atoms selected` is never reported |
| ValidationFramework.EmptySelectionAccepted | utils/validation_framework.py:169-172 | solute data whose three lists are empty passes as written, and is reported by the corrected check |
| ValidationFramework.TopologyIssuesSpec | utils/validation_framework.py:153-174 | the corrected check raises only on an unsized solute list; it reports no solute atoms exactly for an empty list, and a missing key exactly for each absent required key |
| ValidationFramework.TopologyVersionsAgree | utils/validation_framework.py:169-172 | when the solute list is absent or truthy, the as-written and corrected checks give the same issues |
| ValidationFramework.MissingFilesSpec | utils/validation_framework.py:216-220 | the missing-file issues are exactly the required files that do not exist |
| ValidationFramework.MissingFilesNone | utils/validation_framework.py:216-220 | when every required file exists, none is reported |
| ValidationFramework.MissingFilesKinds | utils/validation_framework.py:216-220 | the missing-file issues are all required-file issues |
| ValidationFramework.ReplicaIssuesKinds | utils/validation_framework.py:200-220 | a replica's issues are all directory or file issues of the replica |
| ValidationFramework.ReplicaIssuesSpec | utils/validation_framework.py:200-203 | a replica's directory is reported exactly when it does not exist |
| ValidationFramework.DirectoriesIssueKinds | utils/validation_framework.py:198-220 | the replica loop reports only directory and file issues |
| ValidationFramework.DirectoriesIssuesSpec | utils/validation_framework.py:198-203 | a directory is reported missing exactly when it is one of the replica directories and does not exist |
| ValidationFramework.ReplicaDirectoryIssuesSpec | utils/validation_framework.py:198-203 | a directory is reported missing exactly when it is `replica_i` for some replica index and does not exist |
| ValidationFramework.DirectoriesPresent | utils/validation_framework.py:198-220 | when everything exists, the replica loop reports nothing |
| ValidationFramework.ReplicaSetupRaises | utils/validation_framework.py:193-227 | a missing output directory is the only issue; otherwise the check raises exactly when the count or a length is of the wrong type |
| ValidationFramework.CountChecksReported | utils/validation_framework.py:223-227 | each count mismatch is reported exactly when the length differs from `n_replicas` |
| ValidationFramework.ReplicaSetupShape | utils/validation_framework.py:198-229 | the issues are the replica loop's, then the temperature mismatch, then the factor mismatch |
| ValidationFramework.ReplicaSetupReports | utils/validation_framework.py:198-229 | the replica loop's issues come first, and each count mismatch is reported exactly when the lengths differ |
| ValidationFramework.ReplicaSetupAllPresent | utils/validation_framework.py:177-229 | with everything present and both lists of length `n`, nothing is reported |
| ValidationFramework.EntriesIssuesKinds | utils/validation_framework.py:253-265 | the replica entries report only missing input directories and missing files |
| ValidationFramework.TemperatureSetupSpec | utils/validation_framework.py:244-274 | an unsized replica list raises; otherwise the replica count is reported exactly when it differs, and for given solute data a missing index list or an empty one is reported, never both |
| ValidationFramework.ValidateFilePaths | utils/validation_framework.py:76-107 | the method computes the file-path checks (`FilePathIssues`): the file loop in key order, then the directory, then the trajectory, stopping at the first `TypeError` |
| ValidationFramework.FilePathRaises | utils/validation_framework.py:88-99 | `validate_file_paths` returns exactly when each of `input_tpr` and `topology` is unset, falsy or a string and `md_results_dir` (default `''`) is a string; otherwise it raises `TypeError`; at most four issues |
| ValidationFramework.FilePathMembers | utils/validation_framework.py:76-107 | an issue is reported exactly when one of the four checks reports it |
| ValidationFramework.FilePathIssuesSpec | utils/validation_framework.py:88-105 | a file is reported exactly for a required key whose value is a non-empty string naming no existing path; the directory exactly when its text (`.` for `''`) does not exist; the trajectory exactly when `use_trajectory` is truthy and `md.xtc` under the directory does not exist; nothing else is reported |
| ValidationFramework.NullDirectoryRaises | utils/validation_framework.py:97 | a `md_results_dir` of None makes `Path(None)` raise `TypeError` |
| ValidationFramework.FilePathsPresent | utils/validation_framework.py:76-107 | no issue exactly when every set file exists, the directory exists, and the trajectory exists when it is used |
| ValidationFramework.FilePathIssuesCollected | utils/validation_framework.py:76-107 | the file-path validation is the in-order run of its four checks |
| ValidationFramework.FileKeysFailureStays | utils/validation_framework.py:91-94 | once a file key raises, the file loop's outcome stays that failure |
| ValidationFramework.ThenPrefix | utils/validation_framework.py:340-347 | when two parts run in sequence and return, both returned and the first part's issues lead |
| ValidationFramework.CompleteSetupPasses | utils/validation_framework.py:324-374 | the setup passes exactly when the configuration, `validate_file_paths`, the replica data when given, and the temperature setup when both are given each return no issue |
| ValidationFramework.CompleteSetupOrder | utils/validation_framework.py:337-347 | when the setup check returns, the configuration and file-path checks both returned, and their issues, in that order, lead the collected issues |
| ValidationFramework.ConfigurationIssues | utils/validation_framework.py:27-73 | the six configuration checks collected in order; ConfigurationIssuesCollected and ConfigurationIssueSource state their meaning |
| ValidationFramework.TopologyIssuesAsWritten | utils/validation_framework.py:140-174 | the topology checks as written; NoSoluteAtomsNeverSelected proves the dead test |
| ValidationFramework.TopologyIssues | utils/validation_framework.py:153-174 | the topology checks with the emptiness test reachable; TopologyIssuesSpec states them |
| ValidationFramework.ReplicaSetupIssues | utils/validation_framework.py:177-229 | the replica-setup checks; ReplicaSetupRaises, ReplicaSetupShape and ReplicaSetupReports state them |
| ValidationFramework.TemperatureSetupIssues | utils/validation_framework.py:232-274 | the temperature-setup checks; TemperatureSetupSpec states them |
| ValidationFramework.FilePathIssues | utils/validation_framework.py:76-107 | the file-path checks in order; FilePathRaises, FilePathIssuesSpec and FilePathsPresent state them |
| ValidationFramework.FileKeysIssues | utils/validation_framework.py:88-94 | the file loop over the given keys; FileKeysFailureStays and FilePathIssuesSpec state it |
| ValidationFramework.FileCheck | utils/validation_framework.py:91-94 | one required file; FilePathIssuesSpec states it |
| ValidationFramework.DirectoryCheck | utils/validation_framework.py:96-99 | the MD results directory; FilePathIssuesSpec and NullDirectoryRaises state it |
| ValidationFramework.TrajectoryCheck | utils/validation_framework.py:101-105 | the trajectory file; FilePathIssuesSpec states it |
| ValidationFramework.CompleteSetupIssues | utils/validation_framework.py:324-374 | the parts that run, in order, `validate_file_paths` included; CompleteSetupPasses, CompleteSetupOrder and CompleteSetupRaisesOnNullDirectory state them |
| ValidationFramework.CompleteSetupRaisesOnNullDirectory | utils/validation_framework.py:340-345 | a `md_results_dir` of None makes the complete validation raise `TypeError` once the configuration check has returned |
| ValidationFramework.Collect | utils/validation_framework.py:38-73 | a run of checks: the issues in order, or the first exception; CollectSpec states it |
| ValidationFramework.EntryIssues | utils/validation_framework.py:253-265 | one replica entry's checks; EntriesIssuesKinds states which issues it can report |
| PyText.LStrip | modules/solute_selector.py:127 | the leading whitespace removed is all whitespace, and what is left is a suffix that does not start with whitespace |
| PyText.RStrip | modules/solute_selector.py:127 | the trailing whitespace removed is all whitespace, and what is left is a prefix that does not end with whitespace |
| PyText.Split | modules/solute_selector.py:211 | `str.split()` yields nonempty words free of whitespace |
| PyText.Find | modules/solute_selector_module.py:212 | the first occurrence of the text: a match there and none earlier, or none anywhere |
| PyText.ParseIntOfIntToString | modules/solute_selector.py:216-217 | `int()` reads back the decimal text of every integer |
| PyText.SplitJoinSpace | modules/solute_selector.py:211-226 | splitting words joined by single spaces gives the words back |
| PyText.StripJoinNewline | modules/solute_selector.py:226 | stripping a space-joined line and its newline leaves the joined words |
| PyText.ReplaceAllLeavesAbsent | modules/temperature_controller.py:236-237 | replacing every occurrence of a pattern by a non-empty text that shares no character with another pattern `q` leaves `q` absent if it was absent, and leaves the replaced pattern itself absent |
| PyValue.Less | utils/validation_framework.py:60 | `<` is defined exactly on two numbers and on two strings, and compares numbers by value |
| PyValue.LessEq | utils/validation_framework.py:53 | `<=` is defined exactly on two numbers and on two strings, and compares numbers by value |
| PyValue.Divide | modules/config_manager_module.py:323 | `/` succeeds exactly on numbers with a nonzero divisor, giving the quotient, and raises `ZeroDivisionError` or `TypeError` otherwise |
| PyValue.At | modules/solute_selector_module.py:50 | Python indexing accepts exactly `-len <= i < len`, counting negative indices from the end, and raises `IndexError` otherwise |
| ConfigDict.Merged | modules/config_manager.py:120-121 | the merged configuration has every default key and every user key; user values win, defaults fill the rest, and every key the managers read is present |
| ConfigDict.UserValue | modules/config_manager.py:117 | a falsy YAML document counts as the empty mapping, any other is kept |
| ConfigDict.MergeEmpty | modules/config_manager.py:117-121 | an empty document gives the defaults themselves |
| ConfigDict.GetAfterSet | modules/config_manager.py:231-252 | after setting a key, getting it returns the new value, and every other key is unchanged |
| ConfigDict.SetKeepsLoaded | modules/config_manager.py:244-252 | setting a key never removes one, so the keys the managers read stay present |
| ConfigDict.DefaultConfig | modules/config_manager_module.py:25-52 | the seventeen defaults shared with modules/config_manager.py:38-65; MergeEmpty and DefaultParametersPass state what they give |
| ConfigManagerModule.Flag | modules/config_manager_module.py:185-210 | one check raises exactly when its comparison does, and otherwise reports its message exactly when the comparison holds |
| ConfigManagerModule.When | modules/config_manager_module.py:185-210 | a message is reported once, exactly when its condition is violated |
| ConfigManagerModule.MissingPaths | modules/config_manager_module.py:236-240 | at most one missing-file message per required path, and only of that kind |
| ConfigManagerModule.FilePathConfig | modules/config_manager_module.py:226-233 | once the MD directory is found, `input_tpr` and `topology` are set to its `md.tpr` and `topol.top`; otherwise the configuration is unchanged; no other key changes |
| ConfigManagerModule.ValidationConfig | modules/config_manager_module.py:180-217 | validation changes no key other than the two file paths, and keeps every key the manager reads |
| ConfigManagerModule.ValidationFailure | modules/config_manager_module.py:213-217 | validation raises what a check raises, and otherwise raises `ConfigValidationError` with the collected messages exactly when there are any |
| ConfigManagerModule.Load | modules/config_manager_module.py:84-111 | loading keeps every key the manager reads, on every path |
| ConfigManagerModule.ModuleLadder | modules/config_manager_module.py:280-309 | one replica gives `[T_min]`; otherwise a ladder has one rung per step of `range(n_replicas)` |
| ConfigManagerModule.AddIssue | modules/config_manager_module.py:185-210 | one check appends its message, or stops the validation with its error |
| ConfigManagerModule.StepRungs | modules/config_manager_module.py:297-300 | the linear loop builds the stepped ladder |
| ConfigManagerModule.PowerRungs | modules/config_manager_module.py:304-307 | the exponential loop builds `T_min * ratio ** i` for each rung |
| ConfigManagerModule.AddMissing | modules/config_manager_module.py:236-240 | the required-file loop appends one message per missing file, in order |
| ConfigManagerModule.ConfigManager.constructor | modules/config_manager_module.py:76-82 | without a file the configuration is a copy of the defaults |
| ConfigManagerModule.ConfigManager.Create | modules/config_manager_module.py:69-82 | without a file name the defaults are used; with one, construction fails exactly as loading does and otherwise holds the loaded configuration |
| ConfigManagerModule.ConfigManager.LoadConfig | modules/config_manager_module.py:84-111 | the new configuration, file name and error are those of the load specification |
| ConfigManagerModule.ConfigManager.ValidateConfig | modules/config_manager_module.py:180-217 | validation sets the file paths as specified and fails exactly as the specification says |
| ConfigManagerModule.ConfigManager.ValidateFilePaths | modules/config_manager_module.py:219-246 | the file-path checks set the two paths and append their messages, or raise |
| ConfigManagerModule.ConfigManager.GetParameter | modules/config_manager_module.py:253-264 | the stored value, or the default for an absent key |
| ConfigManagerModule.ConfigManager.SetParameter | modules/config_manager_module.py:266-274 | the configuration with that one key set, nothing else changed |
| ConfigManagerModule.ConfigManager.GetAllParameters | modules/config_manager_module.py:276-278 | a copy with exactly the configuration's keys and values |
| ConfigManagerModule.ConfigManager.GetTemperatureLadder | modules/config_manager_module.py:280-309 | the method computes the configured ladder of the specification |
| ConfigManagerModule.ConfigManager.GetScalingFactors | modules/config_manager_module.py:311-326 | the method computes the configured factors of the specification |
| ConfigManagerModule.ParameterIssuesRaise | modules/config_manager_module.py:185-210 | the parameter checks raise exactly when a compared value is not comparable, and then with `TypeError` |
| ConfigManagerModule.TemperatureChecksListed | modules/config_manager_module.py:185-192 | the target-type and the two temperature checks report their message exactly when violated |
| ConfigManagerModule.ReplicaChecksListed | modules/config_manager_module.py:194-201 | the replica count, exchange interval and method checks report their message exactly when violated |
| ConfigManagerModule.SelectionChecksListed | modules/config_manager_module.py:203-210 | the distance, selection and occupancy checks report their message exactly when violated |
| ConfigManagerModule.ParameterIssuesAgree | modules/config_manager_module.py:185-210 | on comparable parameters the checks report the reference list of violated messages |
| ConfigManagerModule.ParameterErrorsSpec | modules/config_manager_module.py:185-210 | a message is reported exactly when its condition is violated, at most once each |
| ConfigManagerModule.OccupancyIgnoredWithoutTrajectory | modules/config_manager_module.py:209-210 | without trajectory use the occupancy threshold is never checked |
| ConfigManagerModule.SetOccupancy | modules/config_manager_module.py:266-274 | setting the threshold changes only that parameter |
| ConfigManagerModule.DefaultParametersPass | modules/config_manager_module.py:185-210 | the default parameters pass every parameter check |
| ConfigManagerModule.DefaultParametersViolateNothing | modules/config_manager_module.py:185-210 | no condition of the parameter checks holds of the default values |
| ConfigManagerModule.DefaultsPassParameterChecks | modules/config_manager_module.py:25-52 | the default configuration passes every parameter check |
| ConfigManagerModule.MissingPathsSpec | modules/config_manager_module.py:236-240 | a path is reported exactly when it is required and does not exist |
| ConfigManagerModule.FilePathErrorsSpec | modules/config_manager_module.py:219-246 | an unset directory and a missing one are the only messages; a non-string directory raises `TypeError`; a found directory reports exactly its missing required files and the missing trajectory when one is needed |
| ConfigManagerModule.AcceptedIffFilesExist | modules/config_manager_module.py:212-246 | with valid parameters and no trajectory, validation passes exactly when the MD directory and its `md.tpr` and `topol.top` exist, and then sets both paths |
| ConfigManagerModule.FilesAcceptedIffExist | modules/config_manager_module.py:222-246 | with valid parameters and no trajectory, the collected message list is empty exactly when the MD directory and both required files exist |
| ConfigManagerModule.DefaultsAcceptedWithFiles | modules/config_manager_module.py:25-52 | the defaults pass validation exactly when `example/MD_results` and its two required files exist |
| ConfigManagerModule.MissingFileCreatesTemplate | modules/config_manager_module.py:93-95 | a missing configuration file is reported, and the configuration is left alone |
| ConfigManagerModule.LoadMergesOverDefaults | modules/config_manager_module.py:97-106 | loading a mapping records the file, merges it over the defaults, and succeeds exactly when the merge validates |
| ConfigManagerModule.EmptyDocumentGivesDefaults | modules/config_manager_module.py:99-106 | an empty document loads the defaults and validates them |
| ConfigManagerModule.LinearLadderEvenlySpaced | modules/config_manager_module.py:295-300 | the linear ladder of this manager is the calculator's linear ladder |
| ConfigManagerModule.OtherMethodsAreExponential | modules/config_manager_module.py:301-307 | every method other than `linear` gives the exponential ladder |
| ConfigManagerModule.DiffersFromReplicaGenerator | modules/config_manager_module.py:292-307 | a negative `T_min` gives an exponential ladder here but an error in modules/replica_generator_module.py; a negative count gives an empty ladder here but `ValueError` there |
| ConfigManagerModule.AgreesWithCalculatorOnValidInput | modules/config_manager_module.py:280-326 | on parameters the calculator accepts, ladder and factors here are the calculator's |
| ConfigManagerModule.FactorsDivideFirstRung | modules/config_manager_module.py:311-326 | successful factors have one entry per rung, each the first rung divided by that nonzero rung, the first equal to 1 |
| ConfigManagerModule.Checked | modules/config_manager_module.py:185-210 | the parameter checks in the order of the code; ParameterIssuesRaise and ParameterIssuesAgree state them |
| ConfigManagerModule.ParameterIssues | modules/config_manager_module.py:185-210 | the parameter checks on a configuration; ParameterErrorsSpec states each message's condition |
| ConfigManagerModule.ValidationErrors | modules/config_manager_module.py:180-217 | the parameter messages followed by the file-path ones; ValidationFailure states the outcome |
| ConfigManagerModule.FilePathErrors | modules/config_manager_module.py:219-246 | the file-path messages; FilePathErrorsSpec states them |
| ConfigManagerModule.ConfigFactors | modules/config_manager_module.py:311-326 | the ladder, then `T_ref / T` from its first rung; FactorsDivideFirstRung states it |
| ConfigManager.When | modules/config_manager.py:185-195 | a fallback message is reported once, exactly when its condition is violated |
| ConfigManager.Load | modules/config_manager.py:97-124 | loading reports a missing file first, keeps every key the manager reads on every path, and fails only with `ConfigFileCreated` for that path or `LoadFailed` |
| ConfigManager.PairOf | modules/config_manager.py:121 | an item of a list document sets a key exactly when it is a two-element list with a string key or a two-character string; a two-element list with another hashable key sets no string key; anything else raises |
| ConfigManager.UpdatePairs | modules/config_manager.py:121 | `dict.update` with a list of pairs keeps every key, and fails exactly when some item is malformed |
| ConfigManager.LastSet | modules/config_manager.py:121 | the value of the last pair for a key; UpdatePairsSpec states that it is the one stored |
| ConfigManager.UpdatePairsSpec | modules/config_manager.py:121 | a well-formed pair list sets every named key to its last pair's value and leaves every other key as it was |
| ConfigManager.UpdatePairsFirstFailure | modules/config_manager.py:121 | the first malformed item raises, keeping the updates of the items before it |
| ConfigManager.PairsDocumentLoads | modules/config_manager.py:119-121 | the document `- [T_min, 290]` loads as the defaults with `T_min` set to 290 |
| ConfigManager.BadItemKeepsEarlierPairs | modules/config_manager.py:119-124 | `[[T_min, 1], 5]` fails, and the configuration is the defaults with `T_min` set to 1 |
| ConfigManager.FallbackLadder | modules/config_manager.py:273-282 | one replica gives `[T_min]`; otherwise a ladder has one rung per step of `range(n_replicas)` |
| ConfigManager.AddIf | modules/config_manager.py:185-195 | one fallback check appends its message when violated, or stops the validation with its error |
| ConfigManager.ConfigManager.constructor | modules/config_manager.py:89-95 | without a file the configuration is a copy of the defaults |
| ConfigManager.ConfigManager.Create | modules/config_manager.py:82-95 | without a file name the defaults are used; with one, construction fails exactly as loading does and otherwise holds the loaded configuration, a mapping or a list of pairs applied to the defaults |
| ConfigManager.ConfigManager.LoadConfig | modules/config_manager.py:97-124 | the new configuration and error are those of the load specification, a list document included |
| ConfigManager.ConfigManager.ValidateConfig | modules/config_manager.py:163-198 | the outcome is `Validation` on the branch taken: with the framework, an exception of `validate_configuration` or of `validate_file_paths` (a `TypeError`) escapes, otherwise the issues of both are reported |
| ConfigManager.ConfigManager.GetParameter | modules/config_manager.py:231-242 | the stored value, or the default for an absent key |
| ConfigManager.ConfigManager.SetParameter | modules/config_manager.py:244-252 | the key now holds the value, every other key keeps its own, and no key is lost |
| ConfigManager.ConfigManager.GetAllParameters | modules/config_manager.py:254-256 | a copy with exactly the configuration's keys and values |
| ConfigManager.FallbackIssuesRaise | modules/config_manager.py:185-195 | the fallback checks raise exactly when a compared value is not comparable, and then with `TypeError` |
| ConfigManager.FallbackIssuesAgree | modules/config_manager.py:185-195 | on numbers the fallback checks report the reference list of violated messages |
| ConfigManager.FallbackErrorsSpec | modules/config_manager.py:185-195 | a fallback message is reported exactly when its condition is violated, at most four in all |
| ConfigManager.FallbackOccupancyBounds | modules/config_manager.py:194-195 | both ends of [0, 1] pass the fallback occupancy check |
| ConfigManager.FrameworkValidationSpec | modules/config_manager.py:170-179 | with the framework, validation passes exactly when both checks return no issue, raises exactly when either check raises, and then with `TypeError`, and otherwise reports the configuration issues followed by the file issues |
| ConfigManager.NullDirectoryEscapes | modules/config_manager.py:170-179 | with the framework, a `md_results_dir` of None makes validation raise `TypeError` once the configuration check has returned |
| ConfigManager.FallbackValidationSpec | modules/config_manager.py:181-198 | without the framework, validation passes exactly when the fallback checks report nothing, and otherwise raises with their messages or with their error |
| ConfigManager.FallbackReadsFiveKeys | modules/config_manager.py:181-198 | the fallback reads only the five keys it checks; the other keys and the filesystem make no difference |
| ConfigManager.BranchesAgreeOnSharedChecks | modules/config_manager.py:181-198 | the exchange-interval, distance and occupancy messages, which both branches check, are reported by one branch exactly when by the other |
| ConfigManager.OccupancyZeroDisagreement | modules/config_manager.py:194-195 | an occupancy threshold of 0 with trajectory use is rejected by modules/config_manager_module.py but accepted by both branches here |
| ConfigManager.ModuleRejectsZeroOccupancy | modules/config_manager_module.py:209-210 | modules/config_manager_module.py rejects a threshold of 0 when trajectory use is on |
| ConfigManager.FallbackAcceptsZeroOccupancy | modules/config_manager.py:194-195 | the fallback accepts a threshold of 0 |
| ConfigManager.MissingFileCreatesTemplate | modules/config_manager.py:106-108 | a missing configuration file is reported, and the configuration is left alone |
| ConfigManager.LoadMergesWithoutValidating | modules/config_manager.py:110-121 | a mapping is merged over the defaults with no validation; a falsy document gives the defaults |
| ConfigManager.FailedLoadState | modules/config_manager.py:110-124 | a YAML error leaves the configuration alone; a document that is neither a mapping nor a list fails after the defaults were copied in; a list is applied pair by pair to the defaults |
| ConfigManager.ModuleRejectsSingleReplica | modules/config_manager_module.py:194-195 | modules/config_manager_module.py rejects a configuration with one replica |
| ConfigManager.LoadDiffersFromModule | modules/config_manager.py:110-121 | a one-replica file loads here but fails to load in modules/config_manager_module.py; a number as the document leaves the defaults here and the old configuration there |
| ConfigManager.GetAfterSetParameter | modules/config_manager.py:231-252 | after setting a key, getting it returns the new value, and every other key is unchanged |
| ConfigManager.FallbackLadderIsLinear | modules/config_manager.py:273-282 | the fallback ladder is the linear ladder of modules/config_manager_module.py |
| ConfigManager.LinearRungsAreSteps | modules/config_manager.py:281-282 | the comprehension `T_min + i * step` is the stepped ladder |
| ConfigManager.ConfigLadderIgnoresMethod | modules/config_manager.py:273-298 | the fallback ignores `scaling_method`: ladder and factors are those of modules/config_manager_module.py with the method set to `linear` |
| ConfigManager.FallbackLadderEvenlySpaced | modules/config_manager.py:273-282 | for at least two replicas the fallback ladder is the calculator's linear ladder |
| ConfigManager.FallbackFactorsFromFirstRung | modules/config_manager.py:296-298 | successful fallback factors have one entry per rung, each the first rung divided by that nonzero rung, the first equal to 1 |
| ConfigManager.FallbackIssues | modules/config_manager.py:181-195 | the four fallback checks in order; FallbackIssuesRaise and FallbackIssuesAgree state them |
| ConfigManager.Validation | modules/config_manager.py:163-198 | the outcome of either branch, `validate_file_paths` included; FrameworkValidationSpec, NullDirectoryEscapes and FallbackValidationSpec state them |
| ConfigManager.ConfigLadder | modules/config_manager.py:273-282 | the fallback ladder of a configuration; ConfigLadderIgnoresMethod states it |
| ConfigManager.ConfigFactors | modules/config_manager.py:296-298 | `T_ref / T` from the first rung; FallbackFactorsFromFirstRung states it |

## Left out

- **Reading and writing files.**
  - A file is its list of lines.
  - Each existence test is the predicate `pathExists`, or a boolean such as `outputExists`.
  - Directory creation, file copying, backups and the writing of topologies, MDP files, PLUMED files and replica info files are not modelled. Examples are `setup_replica_directories`, `copy_base_files_to_replicas`, `create_replica_info_files`, `generate_scaled_topology_files`, `generate_mdp_files`, `prepare_additional_input_files`, `modify_topology_file` and `create_default_config`.
  - The model stops at the text or data they would write.
- **Console output.** Every `print_*` function, `_print_modification_stats`, the printed warnings of `TemperatureController._validate_solute_data`, and the `main` functions only print.
- **Float formatting.** The `:.1f` and `:.6f` formatters are the parameters `fmt1` and `fmt6` of the temperature controller.
- **Floating point.**
  - Temperatures and factors are exact reals, so `np.linspace` rounding is not modelled.
  - `int()` of the step count truncates a real.
- **The exponential ratio.** `(T_max / T_min) ** (1 / (n - 1))` is a real fractional power and is a parameter `ratio`.
  - The lemmas assume only `ratio > 0` and `ratio^(n-1) == T_max / T_min`.
  - Python's complex result for a negative base is not modelled.
- **The structure library (MDAnalysis).**
  - It is the abstract `StructureAnalyzer.Universe`: protein atoms, frame count, pairwise distance per frame, the answers of selection queries, and residue lookup.
  - In the topology annotators, the universe is the residue number of each atom.
  - Loading (`_load_universe`, `_validate_files`) and selection-query semantics are not modelled.
- **`StructureAnalyzer`: `get_selected_residues_info`.** Not modelled. It reads residue names and atom counts through the library, and only the printing code uses it.
- **`SoluteSelectorModule`: `create_rest2_topology_summary`.** Not modelled. It looks residues up through library selection strings. Only the modules/solute_selector.py version is modelled (`SoluteSelector.Selector.Rest2TopologySummary`).
- **`SoluteSelector`: `validate_topology_modification` of modules/solute_selector.py.** Not modelled; only the modules/solute_selector_module.py version is.
- **`_customize_plumed_outputs`.** Not modelled: nothing calls it, and it depends on a regular expression's `\w` classes.
- Replica directory layout and summaries:
  - **`validate_replica_setup` of both replica generators and `validate_temperature_setup` of the temperature controller** inspect the directory tree and are not modelled. The validation framework's functions of the same names are.
  - **`create_temperature_summary`** is not modelled.
- **`ValidationFramework`: filesystem checks.**
  - `validate_file_paths` is modelled (`ValidationFramework.FilePathIssues`); only its `Path.exists()` tests are the predicate `pathExists`.
  - `validate_structure_files` and `validate_script_generation` are not modelled; they only test file existence.
- **Configuration managers: members nothing calls.** Neither is modelled.
  - `_auto_detect_files` of modules/config_manager.py (lines 200-229) fills each of `input_tpr`, `topology` and `structure` that is unset with the first of its candidate files that exists in the MD directory. The version in modules/config_manager_module.py (lines 248-251) is a bare `pass`.
  - `get_md_files_info` of both managers returns a copy of `MD_FILES_STRUCTURE`.
- ConfigManager.Load: two cases of `dict.update` with a list document are simplified.
  - A list item that is itself a two-entry mapping is a key/value pair in Python, taken from its keys in document order. The model's mappings keep no order, so it treats such an item as malformed.
  - A pair whose key is `None`, a boolean or a number adds an entry under a key that is not a string. The model's configuration is keyed by strings, so it skips that pair. No string lookup can see such an entry, but `get_all_parameters` would return it.
- **Failed imports.**
  - The `ImportError` fallback in modules/config_manager.py is the boolean `helperPresent` of `ConfigManager.Validation`.
  - Its `if TemperatureCalculator:` test is assumed to take the same branch. The calculator branch of `get_temperature_ladder` and `get_scaling_factors` is the `TemperatureCalculator` model. Only the fallback computation is modelled in module `ConfigManager`.
- **Python semantics simplified.**
  - Ordering comparisons are defined only between numbers and between strings. Anything else is `TypeError`, including Python's lexicographic comparison of two lists.
  - YAML mappings have string keys.
  - Case-insensitive matching folds ASCII letters only.
  - Decimal digits are ASCII only (`PyText.IsDigit`). Python's `int()` and the `\d` of a `re` str pattern also accept other Unicode decimal digits (`int("١٢") == 12`), so an atom line or residue comment written with such digits is parsed by the source and not by the model.
  - Paths are joined with `/`, and no `pathlib` normalisation is applied.
- **The `hasattr` tests on atoms** (`resid`, `residues`) in the solute selectors and the structure analyzer are taken as true for everything the library returns.
- **The numpy `tolist` branch** of the temperature controller's constructor is taken to give the same list as the plain branch.
- **Error messages** are datatype constructors that carry the values the messages interpolate, not the message text.

## Findings

| source | as written | input that shows it | evidently intended | confidence | as-written member | corrected member |
|---|---|---|---|---|---|---|
| utils/validation_framework.py:169-172 | the length-0 test sits inside `if solute_data.get('solute_atom_indices')`, so a truthy list is never of length 0 and "No solute atoms selected" is never reported | `solute_data` with all three required keys mapped to empty lists (and both topology files present) gives no error | report "No solute atoms selected" when `solute_atom_indices` is present and empty | not executed | ValidationFramework.EmptySelectionAccepted | ValidationFramework.TopologyIssuesSpec |
