/**
 * The older topology annotator of modules/solute_selector_module.py. Unlike
 * modules/solute_selector.py it keys on residues rather than atom indices:
 * every atom of a solute residue gets `_` appended to its atom type, by
 * replacing the first occurrence of the type text in the line; atom lines
 * of other residues in scope are dropped, and so is every section header.
 *
 * Lines are modelled as in module SoluteSelector: a file is its list of
 * lines, each with its terminator. The structure library's universe is the
 * residue number of every atom, or none.
 */
module SoluteSelectorModule {
  import opened Wrappers
  import opened PyText
  import opened PyValue
  import SoluteSelector

  // ---------------------------------------------------------------------
  // Residue numbers in comments
  // ---------------------------------------------------------------------

  /**
   * The three patterns of `_extract_residue_id_from_comment`, tried in this
   * order, each case-insensitively and at the leftmost position where it
   * matches:
   * `;\s*residue\s+(\d+)`, `;\s*(\d+)\s+[A-Z]{3}` and `;\s*res\s*(\d+)`.
   */
  datatype CommentPattern = ResidueWord | NumberThenName | ResPrefix

  /** The end of the run of whitespace starting at `j` (a greedy `\s*`). */
  function SkipSpaces(s: string, j: nat): (k: nat)
    requires j <= |s|
    ensures j <= k <= |s|
    ensures forall i :: j <= i < k ==> IsSpace(s[i])
    ensures k < |s| ==> !IsSpace(s[k])
    decreases |s| - j
  {
    if j < |s| && IsSpace(s[j]) then SkipSpaces(s, j + 1) else j
  }

  /** The end of the run of digits starting at `j` (a greedy `\d*`). */
  function SkipDigits(s: string, j: nat): (k: nat)
    requires j <= |s|
    ensures j <= k <= |s| && AllDigits(s[j..k])
    ensures k < |s| ==> !IsDigit(s[k])
    decreases |s| - j
  {
    if j < |s| && IsDigit(s[j]) then
      var k := SkipDigits(s, j + 1);
      assert s[j..k] == [s[j]] + s[j + 1..k];
      k
    else j
  }

  /** The lower-case word `w` occurs at `j`, ignoring the case of ASCII letters. */
  predicate LiteralAt(s: string, j: nat, w: string)
  {
    j + |w| <= |s| && forall k :: 0 <= k < |w| ==> Lower(s[j + k]) == w[k]
  }

  /** The group a pattern captures when it matches at `j`. Every repetition is greedy and nothing is gained by backtracking. */
  function MatchAt(p: CommentPattern, s: string, j: nat): Option<nat>
    requires j <= |s|
  {
    if j == |s| || s[j] != ';' then None
    else
      var a := SkipSpaces(s, j + 1);
      match p
      case ResidueWord =>
        if !LiteralAt(s, a, "residue") then None
        else
          var c := SkipSpaces(s, a + 7);
          var d := SkipDigits(s, c);
          if c == a + 7 || d == c then None else Some(DigitsValue(s[c..d]))
      case NumberThenName =>
        var d := SkipDigits(s, a);
        var e := SkipSpaces(s, d);
        if d == a || e == d || e + 3 > |s| then None
        else if IsAsciiLetter(s[e]) && IsAsciiLetter(s[e + 1]) && IsAsciiLetter(s[e + 2]) then
          Some(DigitsValue(s[a..d]))
        else None
      case ResPrefix =>
        if !LiteralAt(s, a, "res") then None
        else
          var c := SkipSpaces(s, a + 3);
          var d := SkipDigits(s, c);
          if d == c then None else Some(DigitsValue(s[c..d]))
  }

  /** The leftmost position from `j` on where the pattern matches (`re.search`). */
  function FirstMatch(p: CommentPattern, s: string, j: nat): (r: Option<nat>)
    requires j <= |s|
    ensures r.Some? ==> j <= r.value <= |s|
    decreases |s| - j
  {
    if MatchAt(p, s, j).Some? then Some(j)
    else if j == |s| then None
    else FirstMatch(p, s, j + 1)
  }

  /** The number the pattern's leftmost match captures. */
  function Search(p: CommentPattern, s: string): Option<nat>
  {
    match FirstMatch(p, s, 0)
    case Some(j) => MatchAt(p, s, j)
    case None => None
  }

  /** `_extract_residue_id_from_comment`: the first pattern that matches anywhere decides. */
  function ExtractResidueId(comment: string): (r: Option<nat>)
    ensures Search(ResidueWord, comment).Some? ==> r == Search(ResidueWord, comment)
    ensures Search(ResidueWord, comment).None? && Search(NumberThenName, comment).Some? ==>
      r == Search(NumberThenName, comment)
    ensures r.None? <==>
      Search(ResidueWord, comment).None? && Search(NumberThenName, comment).None? && Search(ResPrefix, comment).None?
  {
    match Search(ResidueWord, comment)
    case Some(v) => Some(v)
    case None =>
      match Search(NumberThenName, comment)
      case Some(v) => Some(v)
      case None => Search(ResPrefix, comment)
  }

  // ---------------------------------------------------------------------
  // Atom lines
  // ---------------------------------------------------------------------

  /** The three leading fields of an atom line, `nr type resnr`. */
  datatype AtomFields = AtomFields(atomId: int, atomType: string, resid: int)

  /** The fields `_modify_atom_line` reads; `None` when there are fewer than three or `int()` rejects one. */
  function ParseAtomFields(strippedLine: string): (r: Option<AtomFields>)
    ensures var fields := Split(strippedLine);
      r.Some? <==> |fields| >= 3 && ParseInt(fields[0]).Some? && ParseInt(fields[2]).Some?
    ensures r.Some? ==>
      && r.value.atomType == Split(strippedLine)[1]
      && Some(r.value.atomId) == ParseInt(Split(strippedLine)[0])
      && Some(r.value.resid) == ParseInt(Split(strippedLine)[2])
  {
    var fields := Split(strippedLine);
    if |fields| < 3 then None
    else
      match (ParseInt(fields[0]), ParseInt(fields[2]))
      case (Some(atomId), Some(resid)) => Some(AtomFields(atomId, fields[1], resid))
      case _ => None
  }

  /**
   * `_modify_atom_line`: `None` drops the line. An atom of a solute residue
   * whose type has no trailing `_` gets the first occurrence of the type
   * text in the original line replaced by the type and `_`; every other
   * line comes back unchanged.
   */
  function ModifyAtomLine(originalLine: string, strippedLine: string, allSoluteResidues: set<int>): (r: Option<string>)
    ensures r.None? <==> ParseAtomFields(strippedLine).Some? && ParseAtomFields(strippedLine).value.resid !in allSoluteResidues
    ensures r.Some? ==> |originalLine| <= |r.value| <= |originalLine| + 1
  {
    match ParseAtomFields(strippedLine)
    case None => Some(originalLine)
    case Some(f) =>
      if f.resid !in allSoluteResidues then None
      else if !EndsWith(f.atomType, "_") then Some(ReplaceFirst(originalLine, f.atomType, f.atomType + "_"))
      else Some(originalLine)
  }

  // ---------------------------------------------------------------------
  // The parser
  // ---------------------------------------------------------------------

  /** The parser's four local flags and the lines written so far. */
  datatype ParseState = ParseState(
    inMoleculetype: bool,
    inAtomsSection: bool,
    foundTargetMolecule: bool,
    currentMolecule: Option<string>,
    modifiedLines: seq<string>)

  const InitialState := ParseState(false, false, false, None, [])

  /** A stripped line `[ name ]`. */
  predicate IsSectionHeader(s: string)
  {
    StartsWith(s, "[") && EndsWith(s, "]")
  }

  /** `s[1:-1].strip()`; Python's slice is empty for strings shorter than two. */
  function SectionName(s: string): string
  {
    if |s| >= 2 then Strip(s[1..|s| - 1]) else []
  }

  predicate IsComment(s: string)
  {
    StartsWith(s, ";")
  }

  /** A section header sets the flags; a section other than the two of interest also leaves the molecule's scope. */
  function EnterSection(st: ParseState, name: string): ParseState
  {
    if name == "moleculetype" then st.(inMoleculetype := true, inAtomsSection := false)
    else if name == "atoms" then st.(inAtomsSection := true, inMoleculetype := false)
    else st.(inMoleculetype := false, inAtomsSection := false, foundTargetMolecule := false)
  }

  /** Every data line of a moleculetype section names a molecule, which may bring it into scope. */
  function NameMolecule(st: ParseState, line: string, moleculeName: Option<string>): ParseState
    requires Strip(line) != []
  {
    var name := SoluteSelector.FirstWord(line);
    st.(currentMolecule := Some(name),
        foundTargetMolecule := if moleculeName.None? || name == moleculeName.value then true else st.foundTargetMolecule)
  }

  /** What a line of the atoms section of the molecule in scope adds to the written lines. */
  function AtomsSectionLine(written: seq<string>, line: string, allSoluteResidues: set<int>): seq<string>
  {
    var s := Strip(line);
    if IsComment(s) && Contains(s, "residue") then
      var residueId := ExtractResidueId(s);
      if residueId.Some? && residueId.value in allSoluteResidues then written + [line] else written
    else if !IsComment(s) && s != [] then
      match ModifyAtomLine(line, s, allSoluteResidues)
      case Some(m) => written + [m]
      case None => written
    else written + [line]
  }

  /** One iteration of the loop of `_parse_and_modify_topology`. */
  function Step(st: ParseState, line: string, moleculeName: Option<string>, allSoluteResidues: set<int>): ParseState
  {
    var s := Strip(line);
    if IsSectionHeader(s) then EnterSection(st, SectionName(s))
    else if st.inMoleculetype && !IsComment(s) && s != [] then NameMolecule(st, line, moleculeName)
    else if st.inAtomsSection && st.foundTargetMolecule then
      st.(modifiedLines := AtomsSectionLine(st.modifiedLines, line, allSoluteResidues))
    else st.(modifiedLines := st.modifiedLines + [line])
  }

  /** The parser's state after the given lines. */
  function Parse(lines: seq<string>, moleculeName: Option<string>, allSoluteResidues: set<int>): ParseState
  {
    if lines == [] then InitialState
    else
      Step(Parse(lines[..|lines| - 1], moleculeName, allSoluteResidues), lines[|lines| - 1],
           moleculeName, allSoluteResidues)
  }

  // ---------------------------------------------------------------------
  // The validator
  // ---------------------------------------------------------------------

  /** The counters of `validate_topology_modification`. */
  datatype Counts = Counts(totalAtoms: nat, modifiedCount: nat)

  function Plus(a: Counts, b: Counts): Counts
  {
    Counts(a.totalAtoms + b.totalAtoms, a.modifiedCount + b.modifiedCount)
  }

  /** A `[` line mentioning `atoms` starts (or continues) the counted section. */
  predicate OpensAtoms(line: string)
  {
    StartsWith(Strip(line), "[") && Contains(Strip(line), "atoms")
  }

  /** Any other `[` line ends the scan once the counted section has started. */
  predicate ClosesAtoms(line: string)
  {
    StartsWith(Strip(line), "[") && !Contains(Strip(line), "atoms")
  }

  /** A data line with at least two fields is counted as an atom. */
  predicate IsCountedLine(line: string)
  {
    var s := Strip(line);
    !StartsWith(s, "[") && !IsComment(s) && s != [] && |Split(s)| >= 2
  }

  /** A counted atom whose type ends with `_`. */
  predicate IsModifiedLine(line: string)
  {
    IsCountedLine(line) && EndsWith(Split(Strip(line))[1], "_")
  }

  /** The counters the rest of the file adds, given whether the counted section has started. */
  function CountFrom(lines: seq<string>, inAtoms: bool): Counts
  {
    if lines == [] then Counts(0, 0)
    else
      var line := lines[0];
      if OpensAtoms(line) then CountFrom(lines[1..], true)
      else if StartsWith(Strip(line), "[") && inAtoms then Counts(0, 0)
      else if inAtoms && IsCountedLine(line) then
        Plus(Counts(1, if IsModifiedLine(line) then 1 else 0), CountFrom(lines[1..], true))
      else CountFrom(lines[1..], inAtoms)
  }

  // ---------------------------------------------------------------------
  // The selector
  // ---------------------------------------------------------------------

  /**
   * `_get_target_residue_ids` as a specification: the residue of every
   * target atom, looked up with Python indexing; without a universe the
   * first lookup raises `AttributeError`.
   */
  function TargetResidues(universe: Option<seq<int>>, targets: seq<int>): Result<set<int>, PyError>
  {
    if targets == [] then Success({})
    else
      match TargetResidues(universe, targets[..|targets| - 1])
      case Failure(e) => Failure(e)
      case Success(acc) =>
        if universe.None? then Failure(AttributeError)
        else
          match At(universe.value, targets[|targets| - 1])
          case Failure(e) => Failure(e)
          case Success(resid) => Success(acc + {resid})
  }

  class Selector {
    const targetAtomIndices: seq<int>
    const nearbyResidueIds: set<int>
    const soluteAtomIndices: set<int>
    /** The residue number of every atom of the universe, or none when there is no universe. */
    const universe: Option<seq<int>>
    const targetResidueIds: set<int>
    /** All residues involved in REST2 scaling. */
    const allSoluteResidues: set<int> := targetResidueIds + nearbyResidueIds

    constructor (targetAtomIndices: seq<int>, nearbyResidueIds: set<int>, soluteAtomIndices: set<int>,
                 universe: Option<seq<int>>, targetResidueIds: set<int>)
      ensures this.targetAtomIndices == targetAtomIndices && this.nearbyResidueIds == nearbyResidueIds
      ensures this.soluteAtomIndices == soluteAtomIndices && this.universe == universe
      ensures this.targetResidueIds == targetResidueIds
      ensures allSoluteResidues == targetResidueIds + nearbyResidueIds
    {
      this.targetAtomIndices := targetAtomIndices;
      this.nearbyResidueIds := nearbyResidueIds;
      this.soluteAtomIndices := soluteAtomIndices;
      this.universe := universe;
      this.targetResidueIds := targetResidueIds;
    }

    /** `_get_target_residue_ids`: the residue of every target atom. */
    static method GetTargetResidueIds(universe: Option<seq<int>>, targetAtomIndices: seq<int>)
      returns (r: Result<set<int>, PyError>)
      ensures r == TargetResidues(universe, targetAtomIndices)
    {
      var targetResidues: set<int> := {};
      var i := 0;
      while i < |targetAtomIndices|
        invariant 0 <= i <= |targetAtomIndices|
        invariant TargetResidues(universe, targetAtomIndices[..i]) == Success(targetResidues)
      {
        var atomIdx := targetAtomIndices[i];
        assert targetAtomIndices[..i + 1][..i] == targetAtomIndices[..i];
        if universe.None? {
          FailurePersists(universe, targetAtomIndices, i + 1);
          return Failure(AttributeError);
        }
        var atom := At(universe.value, atomIdx);
        if atom.Failure? {
          FailurePersists(universe, targetAtomIndices, i + 1);
          return Failure(atom.error);
        }
        targetResidues := targetResidues + {atom.value};
        i := i + 1;
      }
      assert targetAtomIndices[..i] == targetAtomIndices;
      r := Success(targetResidues);
    }

    /** `SoluteSelector(structure_data)`: raises when a target atom cannot be looked up. */
    static method Create(targetAtomIndices: seq<int>, nearbyResidueIds: set<int>, soluteAtomIndices: set<int>,
                         universe: Option<seq<int>>)
      returns (r: Result<Selector, PyError>)
      ensures r.Success? ==>
        && fresh(r.value)
        && Success(r.value.targetResidueIds) == TargetResidues(universe, targetAtomIndices)
        && r.value.allSoluteResidues == r.value.targetResidueIds + nearbyResidueIds
      ensures r.Failure? ==> TargetResidues(universe, targetAtomIndices) == Failure(r.error)
    {
      var t := GetTargetResidueIds(universe, targetAtomIndices);
      match t {
        case Failure(e) => r := Failure(e);
        case Success(ids) =>
          var s := new Selector(targetAtomIndices, nearbyResidueIds, soluteAtomIndices, universe, ids);
          r := Success(s);
      }
    }

    /**
     * `_parse_and_modify_topology`: the lines whose concatenation is the
     * modified topology, computed in one pass; the source's four local
     * flags and its output list are the fields of `st`.
     */
    method ParseAndModifyTopology(lines: seq<string>, moleculeName: Option<string>)
      returns (modifiedLines: seq<string>)
      ensures modifiedLines == Parse(lines, moleculeName, allSoluteResidues).modifiedLines
    {
      var st := InitialState;
      for i := 0 to |lines|
        invariant Parse(lines[..i], moleculeName, allSoluteResidues) == st
      {
        var line := lines[i];
        PrefixSnoc(lines, i, moleculeName, allSoluteResidues);
        var strippedLine := Strip(line);
        if StartsWith(strippedLine, "[") && EndsWith(strippedLine, "]") {
          st := EnterSectionOf(st, SectionName(strippedLine));
        } else if st.inMoleculetype && !StartsWith(strippedLine, ";") && strippedLine != [] {
          st := NameMoleculeOfLine(st, line, moleculeName);
        } else if st.inAtomsSection && st.foundTargetMolecule {
          var written := WriteAtomsSectionLine(st.modifiedLines, line);
          st := st.(modifiedLines := written);
        } else {
          st := st.(modifiedLines := st.modifiedLines + [line]);
        }
      }
      assert lines[..|lines|] == lines;
      modifiedLines := st.modifiedLines;
    }

    /** The branch of the loop body for a section header: the three flags it sets. */
    static method EnterSectionOf(st: ParseState, sectionName: string) returns (next: ParseState)
      ensures next == EnterSection(st, sectionName)
    {
      next := st;
      if sectionName == "moleculetype" {
        next := next.(inMoleculetype := true, inAtomsSection := false);
      } else if sectionName == "atoms" {
        next := next.(inAtomsSection := true, inMoleculetype := false);
      } else {
        next := next.(inMoleculetype := false, inAtomsSection := false, foundTargetMolecule := false);
      }
    }

    /** The branch of the loop body for a data line of a moleculetype section. */
    static method NameMoleculeOfLine(st: ParseState, line: string, moleculeName: Option<string>) returns (next: ParseState)
      requires Strip(line) != []
      ensures next == NameMolecule(st, line, moleculeName)
    {
      var fields := Split(Strip(line));
      SplitOfStripped(line);
      next := st.(currentMolecule := Some(fields[0]));
      if moleculeName.None? || fields[0] == moleculeName.value {
        next := next.(foundTargetMolecule := true);
      }
    }

    /** The branch of the loop body for a line of the atoms section in scope. */
    method WriteAtomsSectionLine(written: seq<string>, line: string) returns (next: seq<string>)
      ensures next == AtomsSectionLine(written, line, allSoluteResidues)
    {
      next := written;
      var strippedLine := Strip(line);
      if StartsWith(strippedLine, ";") && Contains(strippedLine, "residue") {
        var residueId := ExtractResidueId(strippedLine);
        if residueId.Some? && residueId.value in allSoluteResidues {
          next := next + [line];
        }
      } else if !StartsWith(strippedLine, ";") && strippedLine != [] {
        var modifiedLine := ModifyAtomLine(line, strippedLine, allSoluteResidues);
        if modifiedLine.Some? {
          next := next + [modifiedLine.value];
        }
      } else {
        next := next + [line];
      }
    }

    /** The branch of the counting loop one line takes. */
    static method ClassifyLine(line: string, inAtoms: bool) returns (opens: bool, closes: bool, counted: bool, suffixed: bool)
      ensures opens == OpensAtoms(line)
      ensures closes == (!opens && StartsWith(Strip(line), "[") && inAtoms)
      ensures counted == (!opens && !closes && inAtoms && IsCountedLine(line))
      ensures suffixed == (counted && IsModifiedLine(line))
    {
      var stripped := Strip(line);
      opens, closes, counted, suffixed := false, false, false, false;
      if StartsWith(stripped, "[") && Contains(stripped, "atoms") {
        opens := true;
      } else if StartsWith(stripped, "[") && inAtoms {
        closes := true;
      } else if inAtoms && !StartsWith(stripped, ";") && stripped != [] {
        var fields := Split(stripped);
        if |fields| >= 2 {
          counted := true;
          var atomType := fields[1];
          suffixed := EndsWith(atomType, "_");
        }
      }
    }

    /**
     * `validate_topology_modification`: `false` for a missing file, else
     * whether an atom of the counted section has a suffixed type.
     * `outputExists` stands for the file system's answer.
     */
    method ValidateTopologyModification(outputExists: bool, lines: seq<string>) returns (ok: bool)
      ensures ok == (outputExists && CountFrom(lines, false).modifiedCount > 0)
    {
      if !outputExists {
        return false;
      }
      var modifiedCount: nat, totalAtoms: nat := 0, 0;
      var inAtoms := false;
      var i := 0;
      while i < |lines|
        invariant 0 <= i <= |lines|
        invariant CountFrom(lines, false) == Plus(Counts(totalAtoms, modifiedCount), CountFrom(lines[i..], inAtoms))
      {
        var opens, closes, counted, suffixed := ClassifyLine(lines[i], inAtoms);
        CountFromAt(lines, i, inAtoms);
        if opens {
          inAtoms := true;
        } else if closes {
          break;
        } else if counted {
          ghost var step: nat := if suffixed then 1 else 0;
          ghost var rest := CountFrom(lines[i + 1..], true);
          assert CountFrom(lines[i..], inAtoms) == Plus(Counts(1, step), rest);
          AddAtom(CountFrom(lines, false), totalAtoms, modifiedCount, step, CountFrom(lines[i..], inAtoms), rest);
          totalAtoms := totalAtoms + 1;
          if suffixed {
            modifiedCount := modifiedCount + 1;
          }
        }
        i := i + 1;
      }
      ok := modifiedCount > 0;
    }
  }

  // ---------------------------------------------------------------------
  // Lemmas: the selector
  // ---------------------------------------------------------------------

  /** The parser's state after one more line of a prefix. */
  lemma PrefixSnoc(lines: seq<string>, i: nat, moleculeName: Option<string>, allSoluteResidues: set<int>)
    requires i < |lines|
    ensures Parse(lines[..i + 1], moleculeName, allSoluteResidues)
      == Step(Parse(lines[..i], moleculeName, allSoluteResidues), lines[i], moleculeName, allSoluteResidues)
  {
    assert lines[..i + 1][..i] == lines[..i];
  }

  /** Counting one more atom moves it from the rest of the file into the running totals. */
  lemma AddAtom(total: Counts, totalAtoms: nat, modifiedCount: nat, step: nat, here: Counts, rest: Counts)
    requires total == Plus(Counts(totalAtoms, modifiedCount), here)
    requires here == Plus(Counts(1, step), rest)
    ensures total == Plus(Counts(totalAtoms + 1, modifiedCount + step), rest)
  { }

  /** The counters from line `i` on, by the case that line falls in. */
  lemma CountFromAt(lines: seq<string>, i: nat, inAtoms: bool)
    requires i < |lines|
    ensures var line := lines[i];
      CountFrom(lines[i..], inAtoms) ==
        if OpensAtoms(line) then CountFrom(lines[i + 1..], true)
        else if StartsWith(Strip(line), "[") && inAtoms then Counts(0, 0)
        else if inAtoms && IsCountedLine(line) then
          Plus(Counts(1, if IsModifiedLine(line) then 1 else 0), CountFrom(lines[i + 1..], true))
        else CountFrom(lines[i + 1..], inAtoms)
  {
    assert lines[i..][0] == lines[i] && lines[i..][1..] == lines[i + 1..];
  }

  /** Once a lookup has failed, the later targets do not matter. */
  lemma {:induction false} FailurePersists(universe: Option<seq<int>>, targets: seq<int>, i: nat)
    requires i <= |targets| && TargetResidues(universe, targets[..i]).Failure?
    ensures TargetResidues(universe, targets) == TargetResidues(universe, targets[..i])
    decreases |targets| - i
  {
    if i < |targets| {
      assert targets[..i + 1][..i] == targets[..i];
      FailurePersists(universe, targets, i + 1);
    } else {
      assert targets[..i] == targets;
    }
  }

  /** Every target index is one Python indexing accepts. */
  predicate AllIndexable(atoms: seq<int>, targets: seq<int>)
  {
    forall i :: 0 <= i < |targets| ==> -|atoms| <= targets[i] < |atoms|
  }

  /** Some target atom has residue number `x`. */
  predicate IsTargetResidue(atoms: seq<int>, targets: seq<int>, x: int)
  {
    exists i :: 0 <= i < |targets| && At(atoms, targets[i]) == Success(x)
  }

  lemma TargetsSnoc(atoms: seq<int>, targets: seq<int>)
    requires targets != []
    ensures var init := targets[..|targets| - 1];
      var last := targets[|targets| - 1];
      && (AllIndexable(atoms, targets) <==> AllIndexable(atoms, init) && -|atoms| <= last < |atoms|)
      && forall x :: IsTargetResidue(atoms, targets, x) <==>
           IsTargetResidue(atoms, init, x) || At(atoms, last) == Success(x)
  {
    var init := targets[..|targets| - 1];
    assert forall i :: 0 <= i < |init| ==> init[i] == targets[i];
    forall x | IsTargetResidue(atoms, targets, x)
      ensures IsTargetResidue(atoms, init, x) || At(atoms, targets[|targets| - 1]) == Success(x)
    {
      var i :| 0 <= i < |targets| && At(atoms, targets[i]) == Success(x);
      if i < |init| {
        assert At(atoms, init[i]) == Success(x);
      }
    }
  }

  /**
   * `_get_target_residue_ids` succeeds exactly when there is no target, or
   * there is a universe in which every target index can be looked up; it
   * then yields the residue numbers of the target atoms. The first failing
   * lookup raises `AttributeError` without a universe and `IndexError`
   * otherwise.
   */
  lemma {:induction false} TargetResiduesSpec(universe: Option<seq<int>>, targets: seq<int>)
    ensures var r := TargetResidues(universe, targets);
      && (r.Success? <==> targets == [] || (universe.Some? && AllIndexable(universe.value, targets)))
      && (r.Failure? ==> r.error == if universe.None? then AttributeError else IndexError)
      && (r.Success? && universe.None? ==> r.value == {})
      && (r.Success? && universe.Some? ==>
            forall x :: x in r.value <==> IsTargetResidue(universe.value, targets, x))
  {
    if targets != [] {
      var init := targets[..|targets| - 1];
      TargetResiduesSpec(universe, init);
      if universe.Some? {
        TargetsSnoc(universe.value, targets);
      }
    }
  }

  // ---------------------------------------------------------------------
  // Lemmas: residue numbers in comments
  // ---------------------------------------------------------------------

  /** `re.search` semantics: the match found is the leftmost one, and no match means none anywhere. */
  lemma {:induction false} FirstMatchLeftmost(p: CommentPattern, s: string, j: nat)
    requires j <= |s|
    ensures var r := FirstMatch(p, s, j);
      && (r.Some? ==> MatchAt(p, s, r.value).Some? && forall i :: j <= i < r.value ==> MatchAt(p, s, i).None?)
      && (r.None? ==> forall i :: j <= i <= |s| ==> MatchAt(p, s, i).None?)
    decreases |s| - j
  {
    var r := FirstMatch(p, s, j);
    if MatchAt(p, s, j).Some? {
      assert r == Some(j);
    } else if j == |s| {
      assert r.None?;
      forall i | j <= i <= |s|
        ensures MatchAt(p, s, i).None?
      {
        assert i == j;
      }
    } else {
      FirstMatchLeftmost(p, s, j + 1);
      assert r == FirstMatch(p, s, j + 1);
      forall i | j <= i <= |s| && (r.Some? ==> i < r.value)
        ensures MatchAt(p, s, i).None?
      {
        if i == j {
        } else {
          assert j + 1 <= i;
        }
      }
    }
  }

  /** A run of digits followed by a non-digit is skipped exactly. */
  lemma {:induction false} SkipDigitsOver(s: string, j: nat, d: string)
    requires j + |d| <= |s| && s[j..j + |d|] == d && AllDigits(d)
    requires j + |d| == |s| || !IsDigit(s[j + |d|])
    ensures SkipDigits(s, j) == j + |d|
    decreases |d|
  {
    if d != [] {
      assert s[j] == d[0];
      assert s[j + 1..j + 1 + |d[1..]|] == d[1..];
      SkipDigitsOver(s, j + 1, d[1..]);
    }
  }

  /** Every pattern starts with `;`, so none matches where no `;` follows. */
  lemma {:induction false} NoMatchWithoutSemicolon(p: CommentPattern, s: string, j: nat)
    requires j <= |s|
    requires forall i :: j <= i < |s| ==> s[i] != ';'
    ensures FirstMatch(p, s, j).None?
    decreases |s| - j
  {
    if j < |s| {
      NoMatchWithoutSemicolon(p, s, j + 1);
    }
  }

  /** A comment without `;` names no residue. */
  lemma ExtractWithoutSemicolon(comment: string)
    requires forall i :: 0 <= i < |comment| ==> comment[i] != ';'
    ensures ExtractResidueId(comment).None?
  {
    NoMatchWithoutSemicolon(ResidueWord, comment, 0);
    NoMatchWithoutSemicolon(NumberThenName, comment, 0);
    NoMatchWithoutSemicolon(ResPrefix, comment, 0);
  }

  /** The first format of the source's examples: `; residue 123 ALA` names residue 123. */
  lemma ExtractOfResidueComment(n: nat, tail: string)
    requires tail == [] || !IsDigit(tail[0])
    ensures ExtractResidueId("; residue " + NatToString(n) + tail) == Some(n)
  {
    var d := NatToString(n);
    var s := "; residue " + d + tail;
    assert s[0] == ';' && IsSpace(s[1]) && !IsSpace(s[2]);
    assert SkipSpaces(s, 1) == 2;
    assert s[2..9] == "residue";
    assert LiteralAt(s, 2, "residue");
    assert IsSpace(s[9]) && s[10] == d[0] && !IsSpace(d[0]);
    assert SkipSpaces(s, 9) == 10;
    assert s[10..10 + |d|] == d;
    if tail != [] {
      assert s[10 + |d|] == tail[0];
    }
    SkipDigitsOver(s, 10, d);
    DigitsValueOfNatToString(n);
    assert MatchAt(ResidueWord, s, 0) == Some(n);
  }

  /** How `;\s*(\d+)\s+[A-Z]{3}` matches at `j`: the group is the digit run `s[a..d]`. */
  lemma NumberThenNameAt(s: string, j: nat, a: nat, d: nat, e: nat)
    requires j < |s| && s[j] == ';'
    requires SkipSpaces(s, j + 1) == a && SkipDigits(s, a) == d && SkipSpaces(s, d) == e
    requires a < d < e && e + 3 <= |s|
    requires IsAsciiLetter(s[e]) && IsAsciiLetter(s[e + 1]) && IsAsciiLetter(s[e + 2])
    ensures MatchAt(NumberThenName, s, j) == Some(DigitsValue(s[a..d]))
  {
  }

  /** The layout of a comment `; <digits> <name><tail>`. */
  lemma NumberCommentShape(d: string, name: string, tail: string)
    requires d != [] && AllDigits(d)
    requires |name| == 3 && IsAsciiLetter(name[0]) && IsAsciiLetter(name[1]) && IsAsciiLetter(name[2])
    requires forall i :: 0 <= i < |tail| ==> tail[i] != ';'
    ensures var s, e := "; " + d + " " + name + tail, 3 + |d|;
      && |s| == e + 3 + |tail| && s[0] == ';' && s[1] == ' ' && s[2..2 + |d|] == d && s[2 + |d|] == ' '
      && s[e] == name[0] && s[e + 1] == name[1] && s[e + 2] == name[2]
      && forall i :: 1 <= i < |s| ==> s[i] != ';'
  {
    var s, e := "; " + d + " " + name + tail, 3 + |d|;
    forall i | 1 <= i < |s|
      ensures s[i] != ';'
    {
      if i >= e + 3 {
        assert s[i] == tail[i - e - 3];
      } else if 2 <= i < 2 + |d| {
        assert s[i] == d[i - 2];
      }
    }
  }

  /** `residue` cannot match where a digit follows the leading `;` and no other `;` comes. */
  lemma NoResidueWordBeforeDigit(s: string)
    requires |s| > 2 && s[0] == ';' && IsSpace(s[1]) && IsDigit(s[2])
    requires forall i :: 1 <= i < |s| ==> s[i] != ';'
    ensures Search(ResidueWord, s).None?
  {
    assert SkipSpaces(s, 1) == 2;
    assert !LiteralAt(s, 2, "residue") by {
      assert Lower(s[2 + 0]) == s[2] != "residue"[0];
    }
    assert MatchAt(ResidueWord, s, 0).None?;
    NoMatchWithoutSemicolon(ResidueWord, s, 1);
  }

  /** The second format of the source's examples: `; 123 ALA` names residue 123 when no further `;` follows. */
  lemma ExtractOfNumberComment(n: nat, name: string, tail: string)
    requires |name| == 3 && IsAsciiLetter(name[0]) && IsAsciiLetter(name[1]) && IsAsciiLetter(name[2])
    requires forall i :: 0 <= i < |tail| ==> tail[i] != ';'
    ensures ExtractResidueId("; " + NatToString(n) + " " + name + tail) == Some(n)
  {
    var d := NatToString(n);
    var s := "; " + d + " " + name + tail;
    var e := 3 + |d|;
    NumberCommentShape(d, name, tail);
    assert s[2] == d[0];
    NoResidueWordBeforeDigit(s);
    assert SkipSpaces(s, 1) == 2;
    SkipDigitsOver(s, 2, d);
    assert SkipSpaces(s, 2 + |d|) == e;
    DigitsValueOfNatToString(n);
    NumberThenNameAt(s, 0, 2, 2 + |d|, e);
  }

  // ---------------------------------------------------------------------
  // Lemmas: atom lines
  // ---------------------------------------------------------------------

  /** Too few fields, a field `int()` rejects, or a type already suffixed: the line comes back unchanged. */
  lemma ModifyAtomLineUnchanged(originalLine: string, strippedLine: string, allSoluteResidues: set<int>)
    requires var f := ParseAtomFields(strippedLine);
      f.None? || (f.value.resid in allSoluteResidues && EndsWith(f.value.atomType, "_"))
    ensures ModifyAtomLine(originalLine, strippedLine, allSoluteResidues) == Some(originalLine)
  {
  }

  /**
   * An atom of a solute residue whose type lacks `_`: exactly one `_` is
   * inserted, right after the first occurrence of the type text in the
   * original line, and all other characters stay where they were.
   */
  lemma ModifyAtomLineSuffixes(originalLine: string, strippedLine: string, allSoluteResidues: set<int>)
    requires var f := ParseAtomFields(strippedLine);
      f.Some? && f.value.resid in allSoluteResidues && !EndsWith(f.value.atomType, "_")
    ensures var t := ParseAtomFields(strippedLine).value.atomType;
      && (Find(originalLine, t).Some? ==>
            var k := Find(originalLine, t).value + |t|;
            ModifyAtomLine(originalLine, strippedLine, allSoluteResidues)
              == Some(originalLine[..k] + "_" + originalLine[k..]))
      && (Find(originalLine, t).None? ==>
            ModifyAtomLine(originalLine, strippedLine, allSoluteResidues) == Some(originalLine))
  {
    var t := ParseAtomFields(strippedLine).value.atomType;
    if Find(originalLine, t).Some? {
      ReplaceFirstAppends(originalLine, t, "_");
    }
  }

  // ---------------------------------------------------------------------
  // Lemmas: the parser
  // ---------------------------------------------------------------------

  /** An atoms section of the molecule in scope, outside any moleculetype section. */
  predicate InAtomsScope(st: ParseState)
  {
    st.inAtomsSection && st.foundTargetMolecule && !st.inMoleculetype
  }

  /**
   * A `[ ... ]` line is never written. Its name sets the two section flags;
   * a name other than `moleculetype` and `atoms` also takes the molecule out
   * of scope.
   */
  lemma StepHeader(st: ParseState, line: string, moleculeName: Option<string>, allSoluteResidues: set<int>)
    requires IsSectionHeader(Strip(line))
    ensures var next := Step(st, line, moleculeName, allSoluteResidues);
      var name := SectionName(Strip(line));
      && next.modifiedLines == st.modifiedLines
      && next.currentMolecule == st.currentMolecule
      && next.inMoleculetype == (name == "moleculetype")
      && next.inAtomsSection == (name == "atoms")
      && next.foundTargetMolecule == (st.foundTargetMolecule && (name == "moleculetype" || name == "atoms"))
  {
  }

  /**
   * A data line of a moleculetype section is consumed: it names the current
   * molecule and brings it into scope when it is the one asked for (or none
   * was asked for), and never takes a molecule out of scope.
   */
  lemma StepMoleculeLine(st: ParseState, line: string, moleculeName: Option<string>, allSoluteResidues: set<int>)
    requires var s := Strip(line); !IsSectionHeader(s) && st.inMoleculetype && !IsComment(s) && s != []
    ensures var next := Step(st, line, moleculeName, allSoluteResidues);
      var name := SoluteSelector.FirstWord(line);
      && next.modifiedLines == st.modifiedLines
      && next.currentMolecule == Some(name)
      && next.foundTargetMolecule == (st.foundTargetMolecule || moleculeName.None? || name == moleculeName.value)
      && next.inMoleculetype && next.inAtomsSection == st.inAtomsSection
  {
  }

  /** In scope, an atom line of a residue outside the solute is dropped and nothing else changes. */
  lemma StepDropsNonSoluteAtom(st: ParseState, line: string, moleculeName: Option<string>, allSoluteResidues: set<int>)
    requires var s := Strip(line);
      && InAtomsScope(st) && !IsSectionHeader(s) && !IsComment(s) && s != []
      && ParseAtomFields(s).Some? && ParseAtomFields(s).value.resid !in allSoluteResidues
    ensures Step(st, line, moleculeName, allSoluteResidues) == st
  {
  }

  /** In scope, an atom line of a solute residue is written once, rewritten by `ModifyAtomLine`. */
  lemma StepWritesSoluteAtom(st: ParseState, line: string, moleculeName: Option<string>, allSoluteResidues: set<int>)
    requires var s := Strip(line);
      && InAtomsScope(st) && !IsSectionHeader(s) && !IsComment(s) && s != []
      && ParseAtomFields(s).Some? && ParseAtomFields(s).value.resid in allSoluteResidues
    ensures var next := Step(st, line, moleculeName, allSoluteResidues);
      && next == st.(modifiedLines := next.modifiedLines)
      && next.modifiedLines == st.modifiedLines + [ModifyAtomLine(line, Strip(line), allSoluteResidues).value]
  {
  }

  /** In scope, a comment mentioning `residue` is kept exactly when its residue number is a solute residue. */
  lemma StepResidueComment(st: ParseState, line: string, moleculeName: Option<string>, allSoluteResidues: set<int>)
    requires var s := Strip(line); InAtomsScope(st) && !IsSectionHeader(s) && IsComment(s) && Contains(s, "residue")
    ensures var next := Step(st, line, moleculeName, allSoluteResidues);
      var id := ExtractResidueId(Strip(line));
      && next == st.(modifiedLines := next.modifiedLines)
      && (id.Some? && id.value in allSoluteResidues ==> next.modifiedLines == st.modifiedLines + [line])
      && (id.None? || id.value !in allSoluteResidues ==> next.modifiedLines == st.modifiedLines)
  {
  }

  /** In scope, blank lines and the other comments are kept as they are. */
  lemma StepKeepsOtherLines(st: ParseState, line: string, moleculeName: Option<string>, allSoluteResidues: set<int>)
    requires var s := Strip(line);
      InAtomsScope(st) && !IsSectionHeader(s) && (s == [] || (IsComment(s) && !Contains(s, "residue")))
    ensures Step(st, line, moleculeName, allSoluteResidues) == st.(modifiedLines := st.modifiedLines + [line])
  {
  }

  /** Outside the sections of interest, a line that is no header passes through unchanged. */
  lemma StepOutsideSections(st: ParseState, line: string, moleculeName: Option<string>, allSoluteResidues: set<int>)
    requires !IsSectionHeader(Strip(line)) && !st.inMoleculetype && !(st.inAtomsSection && st.foundTargetMolecule)
    ensures Step(st, line, moleculeName, allSoluteResidues) == st.(modifiedLines := st.modifiedLines + [line])
  {
  }

  /** One step keeps what was written and adds at most one line, and none for a header. */
  lemma StepAppends(st: ParseState, line: string, moleculeName: Option<string>, allSoluteResidues: set<int>)
    ensures var out := Step(st, line, moleculeName, allSoluteResidues).modifiedLines;
      && st.modifiedLines <= out
      && |out| <= |st.modifiedLines| + (if IsSectionHeader(Strip(line)) then 0 else 1)
      && (IsSectionHeader(Strip(line)) ==> out == st.modifiedLines)
  {
    var s := Strip(line);
    if !IsSectionHeader(s) && !(st.inMoleculetype && !IsComment(s) && s != []) && st.inAtomsSection && st.foundTargetMolecule {
      AtomsSectionLineAppends(st.modifiedLines, line, allSoluteResidues);
    }
  }

  /** A line of the atoms section in scope adds at most one line to what was written. */
  lemma AtomsSectionLineAppends(written: seq<string>, line: string, allSoluteResidues: set<int>)
    ensures var out := AtomsSectionLine(written, line, allSoluteResidues);
      written <= out && |out| <= |written| + 1
  {
  }

  /** The number of lines that are section headers. */
  function HeaderCount(lines: seq<string>): nat
  {
    if lines == [] then 0
    else HeaderCount(lines[..|lines| - 1]) + if IsSectionHeader(Strip(lines[|lines| - 1])) then 1 else 0
  }

  /**
   * The output is built by appending only: it has at most one line per input
   * line, and none for a section header. The two section flags are never
   * both set.
   */
  lemma {:induction false} ParseOutputLength(lines: seq<string>, moleculeName: Option<string>, allSoluteResidues: set<int>)
    ensures var st := Parse(lines, moleculeName, allSoluteResidues);
      && |st.modifiedLines| + HeaderCount(lines) <= |lines|
      && !(st.inMoleculetype && st.inAtomsSection)
  {
    if lines != [] {
      var init := lines[..|lines| - 1];
      ParseOutputLength(init, moleculeName, allSoluteResidues);
      StepAppends(Parse(init, moleculeName, allSoluteResidues), lines[|lines| - 1], moleculeName, allSoluteResidues);
    }
  }

  /** No line is a section header. */
  predicate NoSectionHeaders(lines: seq<string>)
  {
    forall k :: 0 <= k < |lines| ==> !IsSectionHeader(Strip(lines[k]))
  }

  lemma NoSectionHeadersPrefix(lines: seq<string>)
    requires lines != [] && NoSectionHeaders(lines)
    ensures NoSectionHeaders(lines[..|lines| - 1]) && !IsSectionHeader(Strip(lines[|lines| - 1]))
  {
    var init := lines[..|lines| - 1];
    forall k | 0 <= k < |init|
      ensures !IsSectionHeader(Strip(init[k]))
    {
      assert init[k] == lines[k];
    }
  }

  /** Input without section headers never enters a section, so it is written back unchanged. */
  lemma {:induction false} ParseWithoutHeaders(lines: seq<string>, moleculeName: Option<string>, allSoluteResidues: set<int>)
    requires NoSectionHeaders(lines)
    ensures Parse(lines, moleculeName, allSoluteResidues) == InitialState.(modifiedLines := lines)
  {
    if lines != [] {
      var init := lines[..|lines| - 1];
      var last := lines[|lines| - 1];
      NoSectionHeadersPrefix(lines);
      ParseWithoutHeaders(init, moleculeName, allSoluteResidues);
      var prev := Parse(init, moleculeName, allSoluteResidues);
      assert Parse(lines, moleculeName, allSoluteResidues) == Step(prev, last, moleculeName, allSoluteResidues);
      StepOutsideSections(prev, last, moleculeName, allSoluteResidues);
      SoluteSelector.LastSplit(lines);
    }
  }

  // ---------------------------------------------------------------------
  // Lemmas: the validator
  // ---------------------------------------------------------------------

  /** Some element satisfies `good`, and no element before it satisfies `bad`. */
  predicate GoodBeforeBad<T>(xs: seq<T>, good: T -> bool, bad: T -> bool)
  {
    exists k :: 0 <= k < |xs| && good(xs[k]) && forall j :: 0 <= j < k ==> !bad(xs[j])
  }

  /** The first element satisfying `start` is followed by a `good` one before any `bad` one. */
  predicate GoodAfterFirst<T>(xs: seq<T>, start: T -> bool, good: T -> bool, bad: T -> bool)
  {
    exists h :: 0 <= h < |xs| && start(xs[h]) && (forall j :: 0 <= j < h ==> !start(xs[j]))
      && GoodBeforeBad(xs[h + 1..], good, bad)
  }

  lemma ShiftGoodBeforeBad<T>(xs: seq<T>, good: T -> bool, bad: T -> bool)
    requires xs != []
    ensures GoodBeforeBad(xs, good, bad) <==> good(xs[0]) || (!bad(xs[0]) && GoodBeforeBad(xs[1..], good, bad))
  {
    var tail := xs[1..];
    if GoodBeforeBad(xs, good, bad) && !good(xs[0]) {
      var k :| 0 <= k < |xs| && good(xs[k]) && forall j :: 0 <= j < k ==> !bad(xs[j]);
      assert tail[k - 1] == xs[k];
      forall j | 0 <= j < k - 1
        ensures !bad(tail[j])
      {
        assert tail[j] == xs[j + 1];
      }
    }
    if !good(xs[0]) && !bad(xs[0]) && GoodBeforeBad(tail, good, bad) {
      var k :| 0 <= k < |tail| && good(tail[k]) && forall j :: 0 <= j < k ==> !bad(tail[j]);
      assert xs[k + 1] == tail[k];
      forall j | 0 <= j < k + 1
        ensures !bad(xs[j])
      {
        if j > 0 {
          assert xs[j] == tail[j - 1];
        }
      }
    }
  }

  lemma ShiftGoodAfterFirst<T>(xs: seq<T>, start: T -> bool, good: T -> bool, bad: T -> bool)
    requires xs != [] && !start(xs[0])
    ensures GoodAfterFirst(xs, start, good, bad) <==> GoodAfterFirst(xs[1..], start, good, bad)
  {
    var tail := xs[1..];
    if GoodAfterFirst(xs, start, good, bad) {
      var h :| 0 <= h < |xs| && start(xs[h]) && (forall j :: 0 <= j < h ==> !start(xs[j]))
        && GoodBeforeBad(xs[h + 1..], good, bad);
      assert tail[h - 1] == xs[h] && tail[h..] == xs[h + 1..];
      forall j | 0 <= j < h - 1
        ensures !start(tail[j])
      {
        assert tail[j] == xs[j + 1];
      }
    }
    if GoodAfterFirst(tail, start, good, bad) {
      var h :| 0 <= h < |tail| && start(tail[h]) && (forall j :: 0 <= j < h ==> !start(tail[j]))
        && GoodBeforeBad(tail[h + 1..], good, bad);
      assert xs[h + 1] == tail[h] && xs[h + 2..] == tail[h + 1..];
      forall j | 0 <= j < h + 1
        ensures !start(xs[j])
      {
        if j > 0 {
          assert xs[j] == tail[j - 1];
        }
      }
    }
  }

  /** Inside the counted section: some modified atom comes before any closing `[` line. */
  predicate ModifiedInSection(lines: seq<string>)
  {
    GoodBeforeBad(lines, IsModifiedLine, ClosesAtoms)
  }

  /** The section opened by the first `[ ... atoms ... ]` line holds a modified atom before it closes. */
  predicate ModifiedInFirstSection(lines: seq<string>)
  {
    GoodAfterFirst(lines, OpensAtoms, IsModifiedLine, ClosesAtoms)
  }

  /** Counting inside the section finds a modified atom exactly when one comes before the closing line. */
  lemma {:induction false} CountInSection(lines: seq<string>)
    ensures CountFrom(lines, true).modifiedCount > 0 <==> ModifiedInSection(lines)
  {
    if lines != [] {
      CountInSection(lines[1..]);
      CountStepInSection(lines);
      ShiftGoodBeforeBad(lines, IsModifiedLine, ClosesAtoms);
    }
  }

  /** One line of the counted section: it is a modified atom, closes the section, or passes to the next. */
  lemma CountStepInSection(lines: seq<string>)
    requires lines != []
    ensures CountFrom(lines, true).modifiedCount > 0
      <==> IsModifiedLine(lines[0]) || (!ClosesAtoms(lines[0]) && CountFrom(lines[1..], true).modifiedCount > 0)
  {
    var line := lines[0];
    var rest := CountFrom(lines[1..], true);
    if OpensAtoms(line) {
      assert !IsModifiedLine(line) && !ClosesAtoms(line);
    } else if StartsWith(Strip(line), "[") {
      assert CountFrom(lines, true) == Counts(0, 0);
      assert ClosesAtoms(line) && !IsModifiedLine(line);
    } else if IsCountedLine(line) {
      assert CountFrom(lines, true).modifiedCount == (if IsModifiedLine(line) then 1 else 0) + rest.modifiedCount;
      assert !ClosesAtoms(line);
    } else {
      assert !IsModifiedLine(line) && !ClosesAtoms(line);
    }
  }

  /**
   * `validate_topology_modification` accepts an existing file exactly when
   * the section opened by its first `[ ... atoms ... ]` line holds, before
   * the next other `[` line, an atom line whose second field ends with `_`.
   */
  lemma {:induction false} CountFindsModifiedAtom(lines: seq<string>)
    ensures CountFrom(lines, false).modifiedCount > 0 <==> ModifiedInFirstSection(lines)
  {
    if lines != [] {
      if OpensAtoms(lines[0]) {
        CountInSection(lines[1..]);
        assert ModifiedInFirstSection(lines) ==> ModifiedInSection(lines[1..]);
      } else {
        CountFindsModifiedAtom(lines[1..]);
        ShiftGoodAfterFirst(lines, OpensAtoms, IsModifiedLine, ClosesAtoms);
      }
    }
  }

  /** The validator never counts more modified atoms than atoms. */
  lemma {:induction false} CountsBounded(lines: seq<string>, inAtoms: bool)
    ensures CountFrom(lines, inAtoms).modifiedCount <= CountFrom(lines, inAtoms).totalAtoms
  {
    if lines != [] {
      CountsBounded(lines[1..], true);
      CountsBounded(lines[1..], inAtoms);
    }
  }

  // ---------------------------------------------------------------------
  // Lemmas: how this annotator differs from module SoluteSelector
  // ---------------------------------------------------------------------

  /**
   * A `[ ... ]` header other than the two the newer annotator consumes (for
   * instance `[ bonds ]`) is dropped here, whereas the newer annotator,
   * in whatever state, writes one line for it.
   */
  lemma OtherHeaderDiffers(st: ParseState, newer: SoluteSelector.ParseState, line: string,
                           moleculeName: Option<string>, allSoluteResidues: set<int>, soluteAtoms: set<int>)
    requires IsSectionHeader(Strip(line)) && !SoluteSelector.IsConsumedHeader(line)
    ensures Step(st, line, moleculeName, allSoluteResidues).modifiedLines == st.modifiedLines
    ensures |SoluteSelector.Step(newer, line, moleculeName, soluteAtoms).modifiedLines| == |newer.modifiedLines| + 1
  {
    StepHeader(st, line, moleculeName, allSoluteResidues);
    SoluteSelector.StepOutput(newer, line, moleculeName, soluteAtoms);
  }

  /**
   * An atom line of a residue outside the solute, in scope, is dropped
   * here, whereas the newer annotator, in whatever state, writes one line
   * for it.
   */
  lemma NonSoluteAtomDiffers(st: ParseState, newer: SoluteSelector.ParseState, line: string,
                             moleculeName: Option<string>, allSoluteResidues: set<int>, soluteAtoms: set<int>)
    requires var s := Strip(line);
      && InAtomsScope(st) && !IsSectionHeader(s) && !IsComment(s) && s != []
      && ParseAtomFields(s).Some? && ParseAtomFields(s).value.resid !in allSoluteResidues
    ensures Step(st, line, moleculeName, allSoluteResidues) == st
    ensures |SoluteSelector.Step(newer, line, moleculeName, soluteAtoms).modifiedLines| == |newer.modifiedLines| + 1
  {
    StepDropsNonSoluteAtom(st, line, moleculeName, allSoluteResidues);
    var s := Strip(line);
    SplitOfStripped(line);
    ParseIntHead(Split(s)[0]);
    assert Split(s)[0][0] == s[0];
    SoluteSelector.NumberLineIsNoHeader(line);
    SoluteSelector.StepOutput(newer, line, moleculeName, soluteAtoms);
  }
}
