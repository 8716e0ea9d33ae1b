/**
 * The topology annotator of modules/solute_selector.py. It walks a GROMACS
 * topology line by line, tracks the `[ moleculetype ]` and `[ atoms ]`
 * sections, and in the atoms of the molecule in scope appends `_` to the
 * atom type of every atom whose 0-based index is a solute atom.
 *
 * A file is its list of lines, each with its line terminator, as Python's
 * file iteration yields them; the written content is their concatenation.
 * The structure library's universe is the list of residue numbers of its
 * atoms, or none.
 */
module SoluteSelector {
  import opened Wrappers
  import opened PyText
  import opened PyValue

  const MoleculetypeHeader: string := "[ moleculetype ]"
  const AtomsHeader: string := "[ atoms ]"

  /** The `modification_stats` dictionary. */
  datatype Stats = Stats(
    totalAtoms: nat,
    modifiedAtoms: nat,
    targetMolecule: Option<string>,
    moleculesFound: seq<string>)

  /** The parser's flags, the lines written so far and the statistics. */
  datatype ParseState = ParseState(
    inMoleculetype: bool,
    inAtomsSection: bool,
    foundTargetMolecule: bool,
    currentMolecule: Option<string>,
    modifiedLines: seq<string>,
    stats: Stats)

  /** The dictionary `create_rest2_topology_summary` returns; Python lists built from sets are unordered, so they stay sets. */
  datatype TopologySummary = TopologySummary(
    targetResidues: set<int>,
    nearbyResidues: set<int>,
    allSoluteResidues: set<int>,
    targetAtoms: nat,
    soluteAtoms: nat,
    totalResidues: nat)

  const InitialState := ParseState(false, false, false, None, [], Stats(0, 0, None, []))

  /**
   * `_modify_atom_line`: an atom line `nr type resnr residue atom cgnr charge mass`
   * whose `nr - 1` is a solute atom and whose type has no trailing `_` is
   * rewritten with the type suffixed, its fields joined by single spaces.
   * `None` means the line is kept as it was: too few fields, a field that is
   * not an integer, an atom outside the solute, or a type already suffixed.
   */
  function ModifyAtomLine(strippedLine: string, soluteAtoms: set<int>): (r: Option<string>)
    ensures |Split(strippedLine)| < 8 ==> r == None
  {
    var parts := Split(strippedLine);
    if |parts| < 8 then None
    else
      match (ParseInt(parts[0]), ParseInt(parts[2]))
      case (Some(atomNr), Some(_)) =>
        if atomNr - 1 in soluteAtoms && !EndsWith(parts[1], "_") then
          Some(Join(parts[1 := parts[1] + "_"], " ") + "\n")
        else None
      case _ => None
  }

  predicate IsComment(s: string)
  {
    StartsWith(s, ";")
  }

  /** The flags a `[` line other than the two headers clears. */
  function CloseSections(st: ParseState, s: string): ParseState
  {
    if StartsWith(s, "[") && !StartsWith(s, AtomsHeader) then st.(inAtomsSection := false, inMoleculetype := false)
    else st
  }

  /** `line.strip().split()[0]` of a line that is not blank: its first word. */
  function FirstWord(line: string): (w: string)
    requires Strip(line) != []
    ensures |Split(Strip(line))| > 0 && w == Split(Strip(line))[0]
  {
    SplitOfStripped(line);
    Split(Strip(line))[0]
  }

  /** The first data line of a moleculetype section names the molecule and decides whether it is in scope. */
  function NameMolecule(st: ParseState, line: string, moleculeName: Option<string>): ParseState
  {
    var s := Strip(line);
    if st.inMoleculetype && !IsComment(s) && s != [] && st.currentMolecule.None? then
      var name := FirstWord(line);
      var found := moleculeName.None? || name == moleculeName.value;
      st.(currentMolecule := Some(name), foundTargetMolecule := found,
          stats := st.stats.(moleculesFound := st.stats.moleculesFound + [name],
                             targetMolecule := if found then Some(name) else st.stats.targetMolecule))
    else st
  }

  /** A data line of an atoms section in scope. */
  predicate IsAtomLine(st: ParseState, s: string)
  {
    st.inAtomsSection && st.foundTargetMolecule && !IsComment(s) && s != [] && !StartsWith(s, "[")
  }

  /** Writing the line: an atom line in scope is counted and possibly rewritten, any other line is copied. */
  function WriteLine(st: ParseState, line: string, soluteAtoms: set<int>): ParseState
  {
    var s := Strip(line);
    if IsAtomLine(st, s) then
      var counted := st.stats.(totalAtoms := st.stats.totalAtoms + 1);
      match ModifyAtomLine(s, soluteAtoms)
      case Some(m) =>
        st.(modifiedLines := st.modifiedLines + [m], stats := counted.(modifiedAtoms := counted.modifiedAtoms + 1))
      case None => st.(modifiedLines := st.modifiedLines + [line], stats := counted)
    else st.(modifiedLines := st.modifiedLines + [line])
  }

  /** One iteration of the loop of `_parse_and_modify_topology`. */
  function Step(st: ParseState, line: string, moleculeName: Option<string>, soluteAtoms: set<int>): ParseState
  {
    var s := Strip(line);
    if StartsWith(s, MoleculetypeHeader) then
      st.(inMoleculetype := true, inAtomsSection := false, currentMolecule := None)
    else if StartsWith(s, AtomsHeader) then
      st.(inAtomsSection := true)
    else
      WriteLine(NameMolecule(CloseSections(st, s), line, moleculeName), line, soluteAtoms)
  }

  /** The parser's state after the given lines. */
  function Parse(lines: seq<string>, moleculeName: Option<string>, soluteAtoms: set<int>): ParseState
  {
    if lines == [] then InitialState
    else Step(Parse(lines[..|lines| - 1], moleculeName, soluteAtoms), lines[|lines| - 1], moleculeName, soluteAtoms)
  }

  /** The two header lines the parser consumes instead of writing. */
  predicate IsConsumedHeader(line: string)
  {
    StartsWith(Strip(line), MoleculetypeHeader) || StartsWith(Strip(line), AtomsHeader)
  }

  /** No line is one of the two consumed headers. */
  predicate NoHeaders(lines: seq<string>)
  {
    forall k :: 0 <= k < |lines| ==> !IsConsumedHeader(lines[k])
  }

  /** The input lines that are not consumed headers, in order. */
  function KeptLines(lines: seq<string>): (kept: seq<string>)
    ensures |kept| <= |lines|
  {
    if lines == [] then []
    else
      var init := KeptLines(lines[..|lines| - 1]);
      if IsConsumedHeader(lines[|lines| - 1]) then init else init + [lines[|lines| - 1]]
  }

  /** `_get_target_residue_ids` as a specification: scan the target atoms from the first. */
  function TargetResidues(atomResids: seq<int>, targets: seq<int>): Result<set<int>, PyError>
  {
    if targets == [] then Success({})
    else
      match TargetResidues(atomResids, targets[..|targets| - 1])
      case Failure(e) => Failure(e)
      case Success(acc) =>
        var idx := targets[|targets| - 1];
        if idx < |atomResids| then
          match At(atomResids, idx)
          case Failure(e) => Failure(e)
          case Success(resid) => Success(acc + {resid})
        else Success(acc)
  }

  class Selector {
    const targetAtomIndices: seq<int>
    const nearbyResidueIds: set<int>
    const soluteAtomIndices: set<int>
    /** The residue number of every atom of the universe, or none when there is no universe. */
    const universe: Option<seq<int>>
    const targetResidueIds: set<int>
    /** All residues involved in REST2 scaling. */
    const allSoluteResidues: set<int> := targetResidueIds + nearbyResidueIds

    constructor (targetAtomIndices: seq<int>, nearbyResidueIds: set<int>, soluteAtomIndices: set<int>,
                 universe: Option<seq<int>>, targetResidueIds: set<int>)
      ensures this.targetAtomIndices == targetAtomIndices && this.nearbyResidueIds == nearbyResidueIds
      ensures this.soluteAtomIndices == soluteAtomIndices && this.universe == universe
      ensures this.targetResidueIds == targetResidueIds
      ensures allSoluteResidues == targetResidueIds + nearbyResidueIds
    {
      this.targetAtomIndices := targetAtomIndices;
      this.nearbyResidueIds := nearbyResidueIds;
      this.soluteAtomIndices := soluteAtomIndices;
      this.universe := universe;
      this.targetResidueIds := targetResidueIds;
    }

    /**
     * `create_rest2_topology_summary`: the three residue sets and the atom and
     * residue counts; the solute residues are the union of the target and
     * nearby residues, so there are no more of them than of both together.
     */
    function Rest2TopologySummary(): (s: TopologySummary)
      ensures s.targetResidues == targetResidueIds && s.nearbyResidues == nearbyResidueIds
      ensures s.allSoluteResidues == s.targetResidues + s.nearbyResidues
      ensures s.targetAtoms == |targetAtomIndices| && s.soluteAtoms == |soluteAtomIndices|
      ensures s.totalResidues == |s.allSoluteResidues|
      ensures s.targetResidues <= s.allSoluteResidues && s.nearbyResidues <= s.allSoluteResidues
      ensures |s.targetResidues| <= s.totalResidues <= |s.targetResidues| + |s.nearbyResidues|
    {
      SizeOfUnion(targetResidueIds, nearbyResidueIds);
      SubsetSize(targetResidueIds, allSoluteResidues);
      TopologySummary(targetResidueIds, nearbyResidueIds, allSoluteResidues,
                      |targetAtomIndices|, |soluteAtomIndices|, |allSoluteResidues|)
    }

    /**
     * `_get_target_residue_ids`: without a universe the nearby residues stand
     * in; otherwise the residue of every target atom below the atom count.
     */
    static method GetTargetResidueIds(universe: Option<seq<int>>, targetAtomIndices: seq<int>,
                                      nearbyResidueIds: set<int>)
      returns (r: Result<set<int>, PyError>)
      ensures universe.None? ==> r == Success(nearbyResidueIds)
      ensures universe.Some? ==> r == TargetResidues(universe.value, targetAtomIndices)
    {
      if universe.None? {
        return Success(nearbyResidueIds);
      }
      var atoms := universe.value;
      var targetResidues: set<int> := {};
      var i := 0;
      while i < |targetAtomIndices|
        invariant 0 <= i <= |targetAtomIndices|
        invariant TargetResidues(atoms, targetAtomIndices[..i]) == Success(targetResidues)
      {
        var atomIdx := targetAtomIndices[i];
        assert targetAtomIndices[..i + 1][..i] == targetAtomIndices[..i];
        if atomIdx < |atoms| {
          var atom := At(atoms, atomIdx);
          if atom.Failure? {
            FailurePersists(atoms, targetAtomIndices, i + 1);
            return Failure(atom.error);
          }
          targetResidues := targetResidues + {atom.value};
        }
        i := i + 1;
      }
      assert targetAtomIndices[..i] == targetAtomIndices;
      r := Success(targetResidues);
    }

    /** `SoluteSelector(structure_data)`, which raises when a target atom index is out of range. */
    static method Create(targetAtomIndices: seq<int>, nearbyResidueIds: set<int>, soluteAtomIndices: set<int>,
                         universe: Option<seq<int>>)
      returns (r: Result<Selector, PyError>)
      ensures universe.None? ==> r.Success?
      ensures r.Success? ==>
        && fresh(r.value)
        && r.value.allSoluteResidues == r.value.targetResidueIds + nearbyResidueIds
        && (universe.None? ==> r.value.targetResidueIds == nearbyResidueIds)
        && (universe.Some? ==> Success(r.value.targetResidueIds) == TargetResidues(universe.value, targetAtomIndices))
      ensures r.Failure? ==> universe.Some? && TargetResidues(universe.value, targetAtomIndices) == Failure(r.error)
    {
      var t := GetTargetResidueIds(universe, targetAtomIndices, nearbyResidueIds);
      match t {
        case Failure(e) => r := Failure(e);
        case Success(ids) =>
          var s := new Selector(targetAtomIndices, nearbyResidueIds, soluteAtomIndices, universe, ids);
          r := Success(s);
      }
    }

    /**
     * `_parse_and_modify_topology`: the written lines and the statistics,
     * computed in one pass over the input lines. The parser's local flags,
     * output list and statistics dictionary are the fields of `st`.
     */
    method ParseAndModifyTopology(lines: seq<string>, moleculeName: Option<string>)
      returns (modifiedLines: seq<string>, stats: Stats)
      ensures modifiedLines == Parse(lines, moleculeName, soluteAtomIndices).modifiedLines
      ensures stats == Parse(lines, moleculeName, soluteAtomIndices).stats
    {
      var st := InitialState;
      for i := 0 to |lines|
        invariant Parse(lines[..i], moleculeName, soluteAtomIndices) == st
      {
        var line := lines[i];
        PrefixSnoc(lines, i, moleculeName, soluteAtomIndices);
        var strippedLine := Strip(line);
        if StartsWith(strippedLine, MoleculetypeHeader) {
          st := st.(inMoleculetype := true, inAtomsSection := false, currentMolecule := None);
          continue;
        }
        if StartsWith(strippedLine, AtomsHeader) {
          st := st.(inAtomsSection := true);
          continue;
        }
        StepNonHeader(st, line, moleculeName, soluteAtomIndices);
        if StartsWith(strippedLine, "[") && !StartsWith(strippedLine, AtomsHeader) {
          st := st.(inAtomsSection := false, inMoleculetype := false);
        }
        st := NameMoleculeOfLine(st, line, moleculeName);
        st := WriteAtomLine(st, line);
      }
      assert lines[..|lines|] == lines;
      modifiedLines, stats := st.modifiedLines, st.stats;
    }

    /** The part of the loop body that records the first data line of a moleculetype section. */
    static method NameMoleculeOfLine(st: ParseState, line: string, moleculeName: Option<string>)
      returns (next: ParseState)
      ensures next == NameMolecule(st, line, moleculeName)
    {
      next := st;
      var strippedLine := Strip(line);
      if st.inMoleculetype && !StartsWith(strippedLine, ";") && strippedLine != [] {
        if st.currentMolecule.None? {
          var name := FirstWord(line);
          var found := moleculeName.None? || name == moleculeName.value;
          var stats := st.stats.(moleculesFound := st.stats.moleculesFound + [name]);
          if found {
            stats := stats.(targetMolecule := Some(name));
          }
          next := st.(currentMolecule := Some(name), foundTargetMolecule := found, stats := stats);
        }
      }
    }

    /** The part of the loop body that counts, rewrites and writes the line. */
    method WriteAtomLine(st: ParseState, line: string) returns (next: ParseState)
      ensures next == WriteLine(st, line, soluteAtomIndices)
    {
      next := st;
      var strippedLine := Strip(line);
      if st.inAtomsSection && st.foundTargetMolecule && !StartsWith(strippedLine, ";") {
        if strippedLine != [] && !StartsWith(strippedLine, "[") {
          next := next.(stats := next.stats.(totalAtoms := next.stats.totalAtoms + 1));
          var modifiedLine := ModifyAtomLine(strippedLine, soluteAtomIndices);
          if modifiedLine.Some? {
            next := next.(modifiedLines := next.modifiedLines + [modifiedLine.value]);
            next := next.(stats := next.stats.(modifiedAtoms := next.stats.modifiedAtoms + 1));
            WriteRewritten(st, line, soluteAtomIndices);
          } else {
            next := next.(modifiedLines := next.modifiedLines + [line]);
            WriteCounted(st, line, soluteAtomIndices);
          }
        } else {
          next := next.(modifiedLines := next.modifiedLines + [line]);
          WriteCopied(st, line, soluteAtomIndices);
        }
      } else {
        next := next.(modifiedLines := next.modifiedLines + [line]);
        WriteCopied(st, line, soluteAtomIndices);
      }
    }
  }

  lemma SubsetSize(a: set<int>, b: set<int>)
    requires a <= b
    ensures |a| <= |b|
  {
    assert b == a + (b - a);
  }

  lemma SizeOfUnion(a: set<int>, b: set<int>)
    ensures |a + b| <= |a| + |b|
  {
    assert a + b == a + (b - a);
    assert |b - a| <= |b| by {
      assert b == (b - a) + (b * a);
    }
  }

  // ---------------------------------------------------------------------
  // Lemmas: the atom line
  // ---------------------------------------------------------------------

  /** Suffixing the type keeps every field a nonempty word. */
  lemma SuffixedFieldsAreWords(parts: seq<string>)
    requires |parts| >= 2 && forall k :: 0 <= k < |parts| ==> parts[k] != [] && NoSpace(parts[k])
    ensures var fields := parts[1 := parts[1] + "_"];
      forall k :: 0 <= k < |fields| ==> fields[k] != [] && NoSpace(fields[k])
  {
    var t := parts[1] + "_";
    forall j | 0 <= j < |t|
      ensures !IsSpace(t[j])
    {
      if j < |parts[1]| {
        assert t[j] == parts[1][j];
      }
    }
  }

  /**
   * A rewritten atom line splits back into the same fields in the same
   * order, with only the atom type (field 2) suffixed with `_`.
   */
  lemma ModifiedFields(strippedLine: string, soluteAtoms: set<int>)
    requires ModifyAtomLine(strippedLine, soluteAtoms).Some?
    ensures var parts := Split(strippedLine);
      Split(Strip(ModifyAtomLine(strippedLine, soluteAtoms).value)) == parts[1 := parts[1] + "_"]
  {
    var parts := Split(strippedLine);
    var fields := parts[1 := parts[1] + "_"];
    SuffixedFieldsAreWords(parts);
    StripJoinNewline(fields);
    SplitJoinSpace(fields);
  }

  /** Rewriting is idempotent: a rewritten line is left alone by a second rewrite. */
  lemma ModifyIdempotent(strippedLine: string, soluteAtoms: set<int>)
    requires ModifyAtomLine(strippedLine, soluteAtoms).Some?
    ensures ModifyAtomLine(Strip(ModifyAtomLine(strippedLine, soluteAtoms).value), soluteAtoms) == None
  {
    ModifiedFields(strippedLine, soluteAtoms);
    var parts := Split(strippedLine);
    var t := parts[1] + "_";
    assert t[|t| - 1..] == "_";
  }

  /** A string that starts with a non-empty prefix begins with the prefix's first character. */
  lemma StartsWithFirstChar(s: string, p: string)
    ensures p != [] && StartsWith(s, p) ==> s != [] && s[0] == p[0]
  {
    if p != [] && StartsWith(s, p) {
      assert s[..|p|][0] == s[0];
    }
  }

  /** A line whose stripped text starts with a sign or a digit opens no section. */
  lemma NumberLineIsNoHeader(line: string)
    requires Strip(line) != [] && (Strip(line)[0] == '-' || Strip(line)[0] == '+' || IsDigit(Strip(line)[0]))
    ensures !IsConsumedHeader(line) && !StartsWith(Strip(line), "[")
  {
    var s := Strip(line);
    assert MoleculetypeHeader[0] == '[' && AtomsHeader[0] == '[';
    StartsWithFirstChar(s, MoleculetypeHeader);
    StartsWithFirstChar(s, AtomsHeader);
    StartsWithFirstChar(s, "[");
  }

  /** The rewritten line is not a header: it starts with the atom number. */
  lemma ModifiedNotHeader(strippedLine: string, soluteAtoms: set<int>)
    requires ModifyAtomLine(strippedLine, soluteAtoms).Some?
    ensures var m := ModifyAtomLine(strippedLine, soluteAtoms).value;
      !IsConsumedHeader(m) && !StartsWith(Strip(m), "[")
  {
    var parts := Split(strippedLine);
    var fields := parts[1 := parts[1] + "_"];
    var m := ModifyAtomLine(strippedLine, soluteAtoms).value;
    assert m == Join(fields, " ") + "\n";
    SuffixedFieldsAreWords(parts);
    StripJoinNewline(fields);
    JoinStartsWithFirst(fields, " ");
    ParseIntHead(parts[0]);
    assert Strip(m)[0] == parts[0][0];
    NumberLineIsNoHeader(m);
  }

  // ---------------------------------------------------------------------
  // Lemmas: the parser
  // ---------------------------------------------------------------------

  /** A `[` line other than `[ atoms ]` clears both section flags; any other line leaves the state alone. */
  lemma CloseSectionsFacts(st: ParseState, s: string)
    ensures var st1 := CloseSections(st, s);
      && st1.modifiedLines == st.modifiedLines && st1.stats == st.stats
      && st1.foundTargetMolecule == st.foundTargetMolecule && st1.currentMolecule == st.currentMolecule
      && (!st.inMoleculetype ==> !st1.inMoleculetype) && (!st.inAtomsSection ==> !st1.inAtomsSection)
      && (StartsWith(s, "[") && !StartsWith(s, AtomsHeader) ==> !st1.inAtomsSection && !st1.inMoleculetype)
      && (!StartsWith(s, "[") || StartsWith(s, AtomsHeader) ==> st1 == st)
  {
  }

  /** Naming a molecule writes and counts nothing and leaves the section flags alone. */
  lemma NameMoleculeFacts(st: ParseState, line: string, moleculeName: Option<string>)
    ensures var st2 := NameMolecule(st, line, moleculeName);
      && st2.modifiedLines == st.modifiedLines
      && st2.stats.totalAtoms == st.stats.totalAtoms && st2.stats.modifiedAtoms == st.stats.modifiedAtoms
      && st2.inMoleculetype == st.inMoleculetype && st2.inAtomsSection == st.inAtomsSection
      && (!st.inMoleculetype ==> st2 == st)
  {
  }

  /** A line that is not an atom line in scope is copied. */
  lemma WriteCopied(st: ParseState, line: string, soluteAtoms: set<int>)
    requires !IsAtomLine(st, Strip(line))
    ensures WriteLine(st, line, soluteAtoms) == st.(modifiedLines := st.modifiedLines + [line])
  {
  }

  /** An atom line in scope that is not rewritten is counted and copied. */
  lemma WriteCounted(st: ParseState, line: string, soluteAtoms: set<int>)
    requires IsAtomLine(st, Strip(line)) && ModifyAtomLine(Strip(line), soluteAtoms).None?
    ensures WriteLine(st, line, soluteAtoms)
      == st.(modifiedLines := st.modifiedLines + [line], stats := st.stats.(totalAtoms := st.stats.totalAtoms + 1))
  {
  }

  /** A rewritten atom line is counted twice over and its rewrite is written. */
  lemma WriteRewritten(st: ParseState, line: string, soluteAtoms: set<int>)
    requires IsAtomLine(st, Strip(line)) && ModifyAtomLine(Strip(line), soluteAtoms).Some?
    ensures WriteLine(st, line, soluteAtoms)
      == st.(modifiedLines := st.modifiedLines + [ModifyAtomLine(Strip(line), soluteAtoms).value],
             stats := st.stats.(totalAtoms := st.stats.totalAtoms + 1, modifiedAtoms := st.stats.modifiedAtoms + 1))
  {
  }

  /** Writing a line changes only the written lines and the two counters. */
  lemma WriteLineFacts(st: ParseState, line: string, soluteAtoms: set<int>)
    ensures var next := WriteLine(st, line, soluteAtoms);
      && next.inMoleculetype == st.inMoleculetype && next.inAtomsSection == st.inAtomsSection
      && next.foundTargetMolecule == st.foundTargetMolecule && next.currentMolecule == st.currentMolecule
      && next.stats.moleculesFound == st.stats.moleculesFound && next.stats.targetMolecule == st.stats.targetMolecule
      && (!st.inAtomsSection ==> next.modifiedLines == st.modifiedLines + [line] && next.stats == st.stats)
  {
  }

  /** Writing appends the line or its rewrite and counts a rewrite only for a counted atom. */
  lemma WriteLineOutput(st: ParseState, line: string, soluteAtoms: set<int>)
    ensures var next := WriteLine(st, line, soluteAtoms);
      && next.modifiedLines == st.modifiedLines + [next.modifiedLines[|st.modifiedLines|]]
      && (next.modifiedLines[|st.modifiedLines|] == line
          || Some(next.modifiedLines[|st.modifiedLines|]) == ModifyAtomLine(Strip(line), soluteAtoms))
      && st.stats.totalAtoms <= next.stats.totalAtoms <= st.stats.totalAtoms + 1
      && st.stats.modifiedAtoms <= next.stats.modifiedAtoms
      && next.stats.modifiedAtoms - st.stats.modifiedAtoms <= next.stats.totalAtoms - st.stats.totalAtoms
  {
  }

  /** A consumed header writes and counts nothing. */
  lemma StepHeader(st: ParseState, line: string, moleculeName: Option<string>, soluteAtoms: set<int>)
    requires IsConsumedHeader(line)
    ensures var next := Step(st, line, moleculeName, soluteAtoms);
      next.modifiedLines == st.modifiedLines && next.stats == st.stats
  {
  }

  /** Any other line is written once, as it is or rewritten, and counted at most once. */
  lemma StepNonHeader(st: ParseState, line: string, moleculeName: Option<string>, soluteAtoms: set<int>)
    requires !IsConsumedHeader(line)
    ensures Step(st, line, moleculeName, soluteAtoms)
      == WriteLine(NameMolecule(CloseSections(st, Strip(line)), line, moleculeName), line, soluteAtoms)
  {
  }

  /** What one step writes: nothing for a consumed header, otherwise the line or its rewrite. */
  lemma StepOutput(st: ParseState, line: string, moleculeName: Option<string>, soluteAtoms: set<int>)
    ensures var next := Step(st, line, moleculeName, soluteAtoms);
      && (IsConsumedHeader(line) ==> next.modifiedLines == st.modifiedLines && next.stats == st.stats)
      && (!IsConsumedHeader(line) ==>
            && |next.modifiedLines| == |st.modifiedLines| + 1
            && next.modifiedLines == st.modifiedLines + [next.modifiedLines[|st.modifiedLines|]]
            && (next.modifiedLines[|st.modifiedLines|] == line
                || Some(next.modifiedLines[|st.modifiedLines|]) == ModifyAtomLine(Strip(line), soluteAtoms)))
      && st.stats.totalAtoms <= next.stats.totalAtoms
      && next.stats.modifiedAtoms - st.stats.modifiedAtoms <= next.stats.totalAtoms - st.stats.totalAtoms
      && st.stats.modifiedAtoms <= next.stats.modifiedAtoms
  {
    if IsConsumedHeader(line) {
      StepHeader(st, line, moleculeName, soluteAtoms);
    } else {
      var st1 := CloseSections(st, Strip(line));
      var st2 := NameMolecule(st1, line, moleculeName);
      assert st2.modifiedLines == st.modifiedLines
        && st2.stats.totalAtoms == st.stats.totalAtoms && st2.stats.modifiedAtoms == st.stats.modifiedAtoms by {
        CloseSectionsFacts(st, Strip(line));
        NameMoleculeFacts(st1, line, moleculeName);
      }
      assert Step(st, line, moleculeName, soluteAtoms) == WriteLine(st2, line, soluteAtoms) by {
        StepNonHeader(st, line, moleculeName, soluteAtoms);
      }
      WriteLineOutput(st2, line, soluteAtoms);
    }
  }

  /**
   * The `[ moleculetype ]` and `[ atoms ]` header lines are consumed; every
   * other line yields exactly one output line, in order, which is either the
   * line itself or its rewrite. At most as many atoms are modified as counted.
   */
  lemma {:induction false} ParseOutput(lines: seq<string>, moleculeName: Option<string>, soluteAtoms: set<int>)
    ensures var st := Parse(lines, moleculeName, soluteAtoms);
      && |st.modifiedLines| == |KeptLines(lines)|
      && st.stats.modifiedAtoms <= st.stats.totalAtoms
      && forall k :: 0 <= k < |st.modifiedLines| ==>
        st.modifiedLines[k] == KeptLines(lines)[k]
        || Some(st.modifiedLines[k]) == ModifyAtomLine(Strip(KeptLines(lines)[k]), soluteAtoms)
  {
    if lines != [] {
      var init := lines[..|lines| - 1];
      var line := lines[|lines| - 1];
      ParseOutput(init, moleculeName, soluteAtoms);
      var prev := Parse(init, moleculeName, soluteAtoms);
      StepOutput(prev, line, moleculeName, soluteAtoms);
      var st := Parse(lines, moleculeName, soluteAtoms);
      assert st == Step(prev, line, moleculeName, soluteAtoms);
      if !IsConsumedHeader(line) {
        assert KeptLines(lines) == KeptLines(init) + [line];
        forall k | 0 <= k < |st.modifiedLines|
          ensures st.modifiedLines[k] == KeptLines(lines)[k]
            || Some(st.modifiedLines[k]) == ModifyAtomLine(Strip(KeptLines(lines)[k]), soluteAtoms)
        {
          if k < |prev.modifiedLines| {
            assert st.modifiedLines[k] == prev.modifiedLines[k];
            assert KeptLines(lines)[k] == KeptLines(init)[k];
          }
        }
      } else {
        assert KeptLines(lines) == KeptLines(init);
      }
    }
  }

  /** How the molecule scope relates to the molecules named so far. */
  predicate ScopeInvariant(st: ParseState, moleculeName: Option<string>)
  {
    var found := st.stats.moleculesFound;
    && (st.foundTargetMolecule <==> |found| > 0 && (moleculeName.None? || found[|found| - 1] == moleculeName.value))
    && (moleculeName.None? && |found| > 0 ==> st.stats.targetMolecule == Some(found[|found| - 1]))
    && (moleculeName.Some? && st.stats.targetMolecule.Some? ==> st.stats.targetMolecule == moleculeName)
    && (st.stats.targetMolecule.Some? <==>
          exists k :: 0 <= k < |found| && (moleculeName.None? || found[k] == moleculeName.value))
  }

  lemma NameMoleculeScope(st: ParseState, line: string, moleculeName: Option<string>)
    requires ScopeInvariant(st, moleculeName)
    ensures ScopeInvariant(NameMolecule(st, line, moleculeName), moleculeName)
  {
    var st2 := NameMolecule(st, line, moleculeName);
    if st2 != st {
      var found := st2.stats.moleculesFound;
      assert found[..|found| - 1] == st.stats.moleculesFound;
      assert forall k :: 0 <= k < |found| - 1 ==> found[k] == st.stats.moleculesFound[k];
    }
  }

  lemma CloseSectionsScope(st: ParseState, s: string, moleculeName: Option<string>)
    requires ScopeInvariant(st, moleculeName)
    ensures ScopeInvariant(CloseSections(st, s), moleculeName)
  {
    CloseSectionsFacts(st, s);
  }

  lemma WriteLineScope(st: ParseState, line: string, moleculeName: Option<string>, soluteAtoms: set<int>)
    requires ScopeInvariant(st, moleculeName)
    ensures ScopeInvariant(WriteLine(st, line, soluteAtoms), moleculeName)
  {
    WriteLineFacts(st, line, soluteAtoms);
  }

  lemma StepScope(st: ParseState, line: string, moleculeName: Option<string>, soluteAtoms: set<int>)
    requires ScopeInvariant(st, moleculeName)
    ensures ScopeInvariant(Step(st, line, moleculeName, soluteAtoms), moleculeName)
  {
    if !IsConsumedHeader(line) {
      var st1 := CloseSections(st, Strip(line));
      CloseSectionsScope(st, Strip(line), moleculeName);
      var st2 := NameMolecule(st1, line, moleculeName);
      NameMoleculeScope(st1, line, moleculeName);
      WriteLineScope(st2, line, moleculeName, soluteAtoms);
      StepNonHeader(st, line, moleculeName, soluteAtoms);
    }
  }


  /**
   * Whether a molecule is in scope depends only on the last molecule named:
   * with no molecule name every molecule is in scope and the target molecule
   * is the last one found; with a name, only that molecule is.
   */
  lemma {:induction false} ScopeOfParse(lines: seq<string>, moleculeName: Option<string>, soluteAtoms: set<int>)
    ensures ScopeInvariant(Parse(lines, moleculeName, soluteAtoms), moleculeName)
  {
    if lines != [] {
      ScopeOfParse(lines[..|lines| - 1], moleculeName, soluteAtoms);
      StepScope(Parse(lines[..|lines| - 1], moleculeName, soluteAtoms), lines[|lines| - 1], moleculeName, soluteAtoms);
    }
  }

  /** Outside every section a line that is not a header is copied and counts as no atom. */
  lemma StepWithoutHeader(st: ParseState, line: string, moleculeName: Option<string>, soluteAtoms: set<int>)
    requires !st.inMoleculetype && !st.inAtomsSection && !IsConsumedHeader(line)
    ensures var next := Step(st, line, moleculeName, soluteAtoms);
      && next.modifiedLines == st.modifiedLines + [line]
      && !next.inMoleculetype && !next.inAtomsSection
      && next.stats.totalAtoms == st.stats.totalAtoms && next.stats.modifiedAtoms == st.stats.modifiedAtoms
  {
    var st1 := CloseSections(st, Strip(line));
    CloseSectionsFacts(st, Strip(line));
    NameMoleculeFacts(st1, line, moleculeName);
    var st2 := NameMolecule(st1, line, moleculeName);
    WriteLineFacts(st2, line, soluteAtoms);
    StepNonHeader(st, line, moleculeName, soluteAtoms);
  }

  lemma NoHeadersPrefix(lines: seq<string>)
    requires lines != [] && NoHeaders(lines)
    ensures NoHeaders(lines[..|lines| - 1]) && !IsConsumedHeader(lines[|lines| - 1])
  {
    var init := lines[..|lines| - 1];
    forall k | 0 <= k < |init|
      ensures !IsConsumedHeader(init[k])
    {
      assert init[k] == lines[k];
    }
  }

  lemma ParseSnoc(lines: seq<string>, moleculeName: Option<string>, soluteAtoms: set<int>)
    requires lines != []
    ensures Parse(lines, moleculeName, soluteAtoms)
      == Step(Parse(lines[..|lines| - 1], moleculeName, soluteAtoms), lines[|lines| - 1], moleculeName, soluteAtoms)
  {
  }

  lemma ParseWithoutHeadersStep(lines: seq<string>, moleculeName: Option<string>, soluteAtoms: set<int>)
    requires lines != [] && !IsConsumedHeader(lines[|lines| - 1])
    requires var st := Parse(lines[..|lines| - 1], moleculeName, soluteAtoms);
      && st.modifiedLines == lines[..|lines| - 1]
      && !st.inMoleculetype && !st.inAtomsSection
      && st.stats.totalAtoms == 0 && st.stats.modifiedAtoms == 0
    ensures var st := Parse(lines, moleculeName, soluteAtoms);
      && st.modifiedLines == lines
      && !st.inMoleculetype && !st.inAtomsSection
      && st.stats.totalAtoms == 0 && st.stats.modifiedAtoms == 0
  {
    var init := lines[..|lines| - 1];
    var last := lines[|lines| - 1];
    var prev := Parse(init, moleculeName, soluteAtoms);
    StepWithoutHeader(prev, last, moleculeName, soluteAtoms);
    ParseSnoc(lines, moleculeName, soluteAtoms);
    LastSplit(lines);
  }

  /** The parser's state after one more line of a prefix. */
  lemma PrefixSnoc(lines: seq<string>, i: nat, moleculeName: Option<string>, soluteAtoms: set<int>)
    requires i < |lines|
    ensures Parse(lines[..i + 1], moleculeName, soluteAtoms)
      == Step(Parse(lines[..i], moleculeName, soluteAtoms), lines[i], moleculeName, soluteAtoms)
  {
    assert lines[..i + 1][..i] == lines[..i];
  }

  lemma LastSplit<T>(s: seq<T>)
    requires s != []
    ensures s == s[..|s| - 1] + [s[|s| - 1]]
  {
  }

  /** Input without the two headers never enters a section, so it is written back unchanged. */
  lemma {:induction false} ParseWithoutHeaders(lines: seq<string>, moleculeName: Option<string>, soluteAtoms: set<int>)
    requires NoHeaders(lines)
    ensures var st := Parse(lines, moleculeName, soluteAtoms);
      && st.modifiedLines == lines
      && !st.inMoleculetype && !st.inAtomsSection
      && st.stats.totalAtoms == 0 && st.stats.modifiedAtoms == 0
  {
    if lines != [] {
      var init := lines[..|lines| - 1];
      var last := lines[|lines| - 1];
      NoHeadersPrefix(lines);
      ParseWithoutHeaders(init, moleculeName, soluteAtoms);
      ParseWithoutHeadersStep(lines, moleculeName, soluteAtoms);
    }
  }

  /** The written lines hold neither header. */
  lemma {:induction false} OutputHasNoHeaders(lines: seq<string>, moleculeName: Option<string>, soluteAtoms: set<int>)
    ensures NoHeaders(Parse(lines, moleculeName, soluteAtoms).modifiedLines)
  {
    if lines != [] {
      var init := lines[..|lines| - 1];
      OutputHasNoHeaders(init, moleculeName, soluteAtoms);
      StepKeepsNoHeaders(Parse(init, moleculeName, soluteAtoms), lines[|lines| - 1], moleculeName, soluteAtoms);
      ParseSnoc(lines, moleculeName, soluteAtoms);
    }
  }

  /** One step adds no header to header-free output. */
  lemma StepKeepsNoHeaders(prev: ParseState, line: string, moleculeName: Option<string>, soluteAtoms: set<int>)
    requires NoHeaders(prev.modifiedLines)
    ensures NoHeaders(Step(prev, line, moleculeName, soluteAtoms).modifiedLines)
  {
    StepOutput(prev, line, moleculeName, soluteAtoms);
    var m := ModifyAtomLine(Strip(line), soluteAtoms);
    if m.Some? {
      ModifiedNotHeader(Strip(line), soluteAtoms);
    }
    var out := Step(prev, line, moleculeName, soluteAtoms).modifiedLines;
    forall k | 0 <= k < |out|
      ensures !IsConsumedHeader(out[k])
    {
      if k < |prev.modifiedLines| {
        assert out[k] == prev.modifiedLines[k];
      }
    }
  }


  /**
   * A second pass over the written topology changes nothing and modifies no
   * atom: the first pass consumed the headers that open the sections.
   */
  lemma SecondPassChangesNothing(lines: seq<string>, moleculeName: Option<string>, soluteAtoms: set<int>)
    ensures var out := Parse(lines, moleculeName, soluteAtoms).modifiedLines;
      && Parse(out, moleculeName, soluteAtoms).modifiedLines == out
      && Parse(out, moleculeName, soluteAtoms).stats.modifiedAtoms == 0
  {
    OutputHasNoHeaders(lines, moleculeName, soluteAtoms);
    ParseWithoutHeaders(Parse(lines, moleculeName, soluteAtoms).modifiedLines, moleculeName, soluteAtoms);
  }

  // ---------------------------------------------------------------------
  // Lemmas: target residues

  /** Once a lookup has failed, the later targets do not matter. */
  lemma {:induction false} FailurePersists(atomResids: seq<int>, targets: seq<int>, i: nat)
    requires i <= |targets| && TargetResidues(atomResids, targets[..i]).Failure?
    ensures TargetResidues(atomResids, targets) == TargetResidues(atomResids, targets[..i])
    decreases |targets| - i
  {
    if i < |targets| {
      assert targets[..i + 1][..i] == targets[..i];
      FailurePersists(atomResids, targets, i + 1);
    } else {
      assert targets[..i] == targets;
    }
  }
  // ---------------------------------------------------------------------

  /**
   * For non-negative target indices the lookup cannot fail, and the target
   * residues are exactly the residues of the targets below the atom count.
   */
  lemma {:induction false} TargetResiduesOfIndices(atomResids: seq<int>, targets: seq<int>)
    requires forall k :: 0 <= k < |targets| ==> targets[k] >= 0
    ensures TargetResidues(atomResids, targets).Success?
    ensures forall r :: r in TargetResidues(atomResids, targets).value <==>
      exists k :: 0 <= k < |targets| && targets[k] < |atomResids| && atomResids[targets[k]] == r
  {
    if targets != [] {
      var init := targets[..|targets| - 1];
      TargetResiduesOfIndices(atomResids, init);
      var idx := targets[|targets| - 1];
      var acc := TargetResidues(atomResids, init).value;
      var res := TargetResidues(atomResids, targets).value;
      forall r
        ensures r in res <==> exists k :: 0 <= k < |targets| && targets[k] < |atomResids| && atomResids[targets[k]] == r
      {
        if r in acc {
          var k :| 0 <= k < |init| && init[k] < |atomResids| && atomResids[init[k]] == r;
          assert targets[k] == init[k];
        }
        if exists k :: 0 <= k < |targets| && targets[k] < |atomResids| && atomResids[targets[k]] == r {
          var k :| 0 <= k < |targets| && targets[k] < |atomResids| && atomResids[targets[k]] == r;
          if k < |init| {
            assert init[k] == targets[k];
          }
        }
      }
    }
  }
}
