/**
 * The proximity analysis of modules/structure_analyzer_module.py: the
 * target atoms a selection query names, the protein residues near them in
 * one frame (static analysis) or in a large enough fraction of the frames
 * of a trajectory (occupancy analysis), and the selection string that joins
 * the target's residues with the nearby ones.
 *
 * The structure library is an abstract `Universe` value: its protein atoms,
 * its number of frames, the distance between two atoms in a frame, and the
 * answers of its selection queries.
 */
module StructureAnalyzer {
  import opened Wrappers
  import opened PyText

  /** An atom of the universe: its index and the number of its residue. */
  datatype Atom = Atom(index: nat, resid: int)

  /**
   * What the analysis asks of the structure library: the atoms `protein`
   * selects, the number of trajectory frames, the distance of two atoms in
   * a frame, the atoms a selection query yields (`None` when the library
   * rejects the query), the residue numbers of an atom group's residues,
   * and the order in which the interpreter iterates over a set of residue
   * numbers.
   */
  datatype Universe = Universe(
    protein: seq<Atom>,
    frames: nat,
    distance: (nat, Atom, Atom) -> real,
    select: string -> Option<seq<Atom>>,
    residuesOf: seq<Atom> -> seq<int>,
    iterationOrder: set<int> -> seq<int>)

  /** Why the target could not be identified. */
  datatype TargetFailure = NoAtomsFound | SelectionRejected

  /**
   * The exceptions of the analysis: the three `StructureAnalysisError`s, and
   * the library's own error when even the fallback solute selection fails.
   */
  datatype AnalysisError =
    | TargetIdentificationFailed(cause: TargetFailure)
    | TrajectoryRequired
    | NoAnalysisResults
    | SelectionFailed

  /** The result dictionary of `analyze_target_and_environment`; the last two entries exist only for a trajectory analysis. */
  datatype AnalysisResults = AnalysisResults(
    targetAtoms: seq<Atom>,
    targetAtomCount: nat,
    nearbyResidues: set<int>,
    nearbyResidueCount: nat,
    soluteAtoms: seq<Atom>,
    soluteAtomCount: nat,
    analysisMethod: string,
    totalFrames: Option<nat>,
    occupancyThreshold: Option<real>)

  /** The dictionary `get_solute_selection_data` hands to the solute selector. */
  datatype SelectionData = SelectionData(
    targetAtomIndices: seq<nat>,
    nearbyResidueIds: set<int>,
    soluteAtomIndices: seq<nat>)

  /** The frame the static analysis sees: the universe's current one, the first. */
  const CurrentFrame: nat := 0

  // ---------------------------------------------------------------------
  // Target identification
  // ---------------------------------------------------------------------

  /** `identify_target_region` as a specification: a query matching no atom is an error too. */
  function TargetRegion(u: Universe, targetSelection: string): (r: Result<seq<Atom>, AnalysisError>)
    ensures r.Success? <==> u.select(targetSelection).Some? && u.select(targetSelection).value != []
    ensures r.Success? ==> r.value == u.select(targetSelection).value
    ensures r.Failure? ==>
      r.error == TargetIdentificationFailed(if u.select(targetSelection).None? then SelectionRejected else NoAtomsFound)
  {
    match u.select(targetSelection)
    case None => Failure(TargetIdentificationFailed(SelectionRejected))
    case Some(atoms) =>
      if |atoms| == 0 then Failure(TargetIdentificationFailed(NoAtomsFound)) else Success(atoms)
  }

  // ---------------------------------------------------------------------
  // Contacts
  // ---------------------------------------------------------------------

  /** A target atom touches a protein atom of another residue within the cutoff, the boundary included. */
  predicate InContact(u: Universe, frame: nat, cutoff: real, t: Atom, p: Atom)
  {
    t.resid != p.resid && u.distance(frame, t, p) <= cutoff
  }

  /** The residues of the atoms of `ps` that `t` touches in `frame`. */
  function AtomContacts(u: Universe, frame: nat, cutoff: real, t: Atom, ps: seq<Atom>): set<int>
  {
    if ps == [] then {}
    else
      AtomContacts(u, frame, cutoff, t, ps[..|ps| - 1])
        + if InContact(u, frame, cutoff, t, ps[|ps| - 1]) then {ps[|ps| - 1].resid} else {}
  }

  /** The protein residues some target atom touches in `frame`. */
  function FrameContacts(u: Universe, frame: nat, cutoff: real, targets: seq<Atom>): set<int>
  {
    if targets == [] then {}
    else
      FrameContacts(u, frame, cutoff, targets[..|targets| - 1])
        + AtomContacts(u, frame, cutoff, targets[|targets| - 1], u.protein)
  }

  /** Some target atom touches a protein atom of residue `r`. */
  predicate Touched(u: Universe, frame: nat, cutoff: real, targets: seq<Atom>, r: int)
  {
    exists i, j :: 0 <= i < |targets| && 0 <= j < |u.protein|
      && InContact(u, frame, cutoff, targets[i], u.protein[j]) && u.protein[j].resid == r
  }

  /** The number of the first `n` frames in which residue `r` is touched. */
  function ContactFrames(u: Universe, cutoff: real, targets: seq<Atom>, r: int, n: nat): nat
  {
    if n == 0 then 0
    else ContactFrames(u, cutoff, targets, r, n - 1) + if r in FrameContacts(u, n - 1, cutoff, targets) then 1 else 0
  }

  /** The residues touched in some of the first `n` frames. */
  function Contacted(u: Universe, cutoff: real, targets: seq<Atom>, n: nat): set<int>
  {
    if n == 0 then {} else Contacted(u, cutoff, targets, n - 1) + FrameContacts(u, n - 1, cutoff, targets)
  }

  /** The fraction of all frames in which residue `r` is touched. */
  function Occupancy(u: Universe, cutoff: real, targets: seq<Atom>, r: int): real
    requires u.frames > 0
  {
    (ContactFrames(u, cutoff, targets, r, u.frames) as real) / (u.frames as real)
  }

  /** The residues of the occupancy analysis: touched at least once, in at least the fraction `threshold` of the frames. */
  function TrajectoryNearby(u: Universe, cutoff: real, targets: seq<Atom>, threshold: real): set<int>
  {
    set r | r in Contacted(u, cutoff, targets, u.frames) && u.frames > 0 && Occupancy(u, cutoff, targets, r) >= threshold
  }

  /** `residue_contacts.get(resid, 0)`. */
  function CountOf(counts: map<int, nat>, r: int): nat
  {
    if r in counts then counts[r] else 0
  }

  // ---------------------------------------------------------------------
  // The selection string
  // ---------------------------------------------------------------------

  /** The part standing for a target without residues, replaced by the target's atom indices. */
  const PlaceholderPart: string := "same residue as (" + PlaceholderWord + ")"

  const PlaceholderWord: string := "selection_placeholder"

  /** The smallest element of a non-empty set. */
  function SetMin(s: set<int>): (m: int)
    requires s != {}
    ensures m in s && forall x :: x in s ==> m <= x
  {
    MinExists(s);
    var m :| m in s && forall x :: x in s ==> m <= x;
    m
  }

  /** Python's `sorted` of a set of integers. */
  function SortedSet(s: set<int>): (r: seq<int>)
    ensures |r| == |s| && forall x :: x in r <==> x in s
    ensures forall i, j :: 0 <= i < j < |r| ==> r[i] < r[j]
    decreases |s|
  {
    if s == {} then []
    else
      var m := SetMin(s);
      var rest := SortedSet(s - {m});
      MinBeforeSorted(s, m, rest);
      [m] + rest
  }

  /** Putting the minimum before the sorted rest of the set sorts the whole set. */
  lemma MinBeforeSorted(s: set<int>, m: int, rest: seq<int>)
    requires m in s && forall x :: x in s ==> m <= x
    requires |rest| == |s - {m}| && forall x :: x in rest <==> x in s - {m}
    requires forall i, j :: 0 <= i < j < |rest| ==> rest[i] < rest[j]
    ensures |[m] + rest| == |s| && forall x :: x in [m] + rest <==> x in s
    ensures forall i, j :: 0 <= i < j < |[m] + rest| ==> ([m] + rest)[i] < ([m] + rest)[j]
  {
    assert |s - {m}| == |s| - 1;
    var r := [m] + rest;
    forall i, j | 0 <= i < j < |r|
      ensures r[i] < r[j]
    {
      assert r[j] == rest[j - 1] && r[j] in s - {m};
      if i > 0 {
        assert r[i] == rest[i - 1];
      }
    }
  }

  /** `" ".join(map(str, xs))`. */
  function JoinInts(xs: seq<int>): string
  {
    Join(seq(|xs|, k requires 0 <= k < |xs| => IntToString(xs[k])), " ")
  }

  /** `f"resid {r}"`. */
  function ResidPart(r: int): string
  {
    "resid " + IntToString(r)
  }

  /** `f"resid {r}"` for each target residue, in order. */
  function TargetParts(resids: seq<int>): seq<string>
  {
    seq(|resids|, k requires 0 <= k < |resids| => ResidPart(resids[k]))
  }

  /** The list `solute_selection_parts`. */
  function SelectionParts(targetResids: seq<int>, nearby: set<int>): seq<string>
  {
    (if |targetResids| > 0 then TargetParts(targetResids) else [PlaceholderPart])
      + if nearby != {} then ["resid " + JoinInts(SortedSet(nearby))] else []
  }

  /** `f"({part})"` for each part. */
  function Parenthesised(parts: seq<string>): seq<string>
  {
    seq(|parts|, k requires 0 <= k < |parts| => "(" + parts[k] + ")")
  }

  /** One part alone, or the parenthesised parts joined by `or`. */
  function CombineParts(parts: seq<string>): string
    requires |parts| > 0
  {
    if |parts| > 1 then Join(Parenthesised(parts), " or ") else parts[0]
  }

  /** The selection string of `_create_solute_selection`. */
  function SelectionString(targetResids: seq<int>, targetIndices: seq<nat>, nearby: set<int>): string
  {
    var combined := CombineParts(SelectionParts(targetResids, nearby));
    if Contains(combined, PlaceholderWord) then
      ReplaceAll(combined, PlaceholderPart, "index " + JoinInts(targetIndices))
    else combined
  }

  /** The query of the fallback: the nearby residues alone, in the set's iteration order rather than sorted. */
  function FallbackSelection(u: Universe, nearby: set<int>): string
  {
    "resid " + JoinInts(u.iterationOrder(nearby))
  }

  function Indices(atoms: seq<Atom>): (r: seq<nat>)
    ensures |r| == |atoms| && forall k :: 0 <= k < |atoms| ==> r[k] == atoms[k].index
  {
    seq(|atoms|, k requires 0 <= k < |atoms| => atoms[k].index)
  }

  /**
   * `_create_solute_selection` as a specification: the atoms the selection
   * string yields; when the library rejects it, the target atoms followed by
   * the atoms of the nearby residues.
   */
  function SoluteSelection(u: Universe, targets: seq<Atom>, nearby: set<int>): Result<seq<Atom>, AnalysisError>
  {
    match u.select(SelectionString(u.residuesOf(targets), Indices(targets), nearby))
    case Some(atoms) => Success(atoms)
    case None =>
      match u.select(FallbackSelection(u, nearby))
      case Some(nearbyAtoms) => Success(targets + nearbyAtoms)
      case None => Failure(SelectionFailed)
  }

  /** The nearby residues by the chosen analysis: over the trajectory, or in the current frame. */
  function Nearby(u: Universe, targets: seq<Atom>, cutoff: real, useTrajectory: bool, occupancyThreshold: real): set<int>
  {
    if useTrajectory then TrajectoryNearby(u, cutoff, targets, occupancyThreshold)
    else FrameContacts(u, CurrentFrame, cutoff, targets)
  }

  // ---------------------------------------------------------------------
  // The analyzer
  // ---------------------------------------------------------------------

  class Analyzer {
    const universe: Universe
    /** Whether a trajectory file was given. */
    const hasTrajectory: bool
    var targetAtoms: Option<seq<Atom>>
    var nearbyResidues: Option<set<int>>
    var soluteAtoms: Option<seq<Atom>>

    /** Solute atoms are only ever stored together with the target and the nearby residues. */
    predicate Valid()
      reads this
    {
      soluteAtoms.Some? ==> targetAtoms.Some? && nearbyResidues.Some?
    }

    /** `StructureAnalyzer(...)` once the files are checked and the universe is loaded: no results yet. */
    constructor (universe: Universe, hasTrajectory: bool)
      ensures this.hasTrajectory == hasTrajectory
      ensures this.universe == universe
      ensures targetAtoms.None? && nearbyResidues.None? && soluteAtoms.None?
      ensures Valid()
    {
      this.universe := universe;
      this.hasTrajectory := hasTrajectory;
      targetAtoms, nearbyResidues, soluteAtoms := None, None, None;
    }

    /** `identify_target_region`: stores and returns the selected atoms, or fails leaving the fields as they were. */
    method IdentifyTargetRegion(targetSelection: string) returns (r: Result<seq<Atom>, AnalysisError>)
      modifies this
      requires Valid()
      ensures r == TargetRegion(universe, targetSelection)
      ensures targetAtoms == if r.Success? then Some(r.value) else old(targetAtoms)
      ensures nearbyResidues == old(nearbyResidues) && soluteAtoms == old(soluteAtoms)
      ensures Valid()
    {
      var selected := universe.select(targetSelection);
      if selected.None? {
        return Failure(TargetIdentificationFailed(SelectionRejected));
      }
      var atoms := selected.value;
      if |atoms| == 0 {
        return Failure(TargetIdentificationFailed(NoAtomsFound));
      }
      targetAtoms := Some(atoms);
      r := Success(atoms);
    }

    /** The contacts loop shared by both analyses: every target atom against every protein atom, in one frame. */
    method ContactsInFrame(targets: seq<Atom>, cutoff: real, frame: nat) returns (contacts: set<int>)
      ensures contacts == FrameContacts(universe, frame, cutoff, targets)
    {
      contacts := {};
      var proteinAtoms := universe.protein;
      for i := 0 to |targets|
        invariant contacts == FrameContacts(universe, frame, cutoff, targets[..i])
      {
        var targetAtom := targets[i];
        for j := 0 to |proteinAtoms|
          invariant contacts
            == FrameContacts(universe, frame, cutoff, targets[..i]) + AtomContacts(universe, frame, cutoff, targetAtom, proteinAtoms[..j])
        {
          var proteinAtom := proteinAtoms[j];
          assert proteinAtoms[..j + 1][..j] == proteinAtoms[..j];
          if targetAtom.resid == proteinAtom.resid {
            continue;
          }
          var distance := universe.distance(frame, targetAtom, proteinAtom);
          if distance <= cutoff {
            contacts := contacts + {proteinAtom.resid};
          }
        }
        assert proteinAtoms[..|proteinAtoms|] == proteinAtoms;
        assert targets[..i + 1][..i] == targets[..i];
      }
      assert targets[..|targets|] == targets;
    }

    /** `find_nearby_residues_static`: the residues touched in the current frame. */
    method FindNearbyResiduesStatic(targets: seq<Atom>, cutoff: real) returns (nearbyResids: set<int>)
      ensures nearbyResids == FrameContacts(universe, CurrentFrame, cutoff, targets)
    {
      nearbyResids := ContactsInFrame(targets, cutoff, CurrentFrame);
    }

    /** `residue_contacts[resid] = residue_contacts.get(resid, 0) + 1` for every residue of one frame. */
    static method CountFrame(residueContacts: map<int, nat>, frameContacts: set<int>) returns (next: map<int, nat>)
      ensures forall r :: r in next <==> r in residueContacts || r in frameContacts
      ensures forall r :: r in next ==> next[r] == CountOf(residueContacts, r) + if r in frameContacts then 1 else 0
    {
      next := residueContacts;
      var remaining := frameContacts;
      while remaining != {}
        invariant remaining <= frameContacts
        invariant forall r :: r in next <==> r in residueContacts || r in frameContacts - remaining
        invariant forall r :: r in next ==>
          next[r] == CountOf(residueContacts, r) + if r in frameContacts - remaining then 1 else 0
        decreases |remaining|
      {
        SetHasMember(remaining);
        var resid :| resid in remaining;
        next := next[resid := CountOf(next, resid) + 1];
        remaining := remaining - {resid};
      }
    }

    /** The filter of `find_nearby_residues_trajectory`: the residues whose occupancy reaches the threshold. */
    static method FilterByOccupancy(residueContacts: map<int, nat>, totalFrames: nat, threshold: real)
      returns (nearbyResids: set<int>)
      requires totalFrames > 0 || residueContacts == map[]
      ensures forall r :: r in nearbyResids <==>
        r in residueContacts && (residueContacts[r] as real) / (totalFrames as real) >= threshold
    {
      nearbyResids := {};
      var items := residueContacts.Keys;
      while items != {}
        invariant items <= residueContacts.Keys
        invariant forall r :: r in nearbyResids <==>
          r in residueContacts.Keys - items && (residueContacts[r] as real) / (totalFrames as real) >= threshold
        decreases |items|
      {
        SetHasMember(items);
        var resid :| resid in items;
        var occupancy := (residueContacts[resid] as real) / (totalFrames as real);
        if occupancy >= threshold {
          nearbyResids := nearbyResids + {resid};
        }
        items := items - {resid};
      }
    }

    /**
     * `find_nearby_residues_trajectory`: without a trajectory file it fails
     * before scanning any frame; otherwise it counts, per residue, the
     * frames in which it is touched and keeps those whose occupancy reaches
     * the threshold.
     */
    method FindNearbyResiduesTrajectory(targets: seq<Atom>, cutoff: real, occupancyThreshold: real)
      returns (r: Result<set<int>, AnalysisError>)
      ensures r.Failure? <==> !hasTrajectory
      ensures r.Failure? ==> r.error == TrajectoryRequired
      ensures r.Success? ==> r.value == TrajectoryNearby(universe, cutoff, targets, occupancyThreshold)
    {
      if !hasTrajectory {
        return Failure(TrajectoryRequired);
      }
      var residueContacts: map<int, nat> := map[];
      var totalFrames: nat := 0;
      for frame := 0 to universe.frames
        invariant totalFrames == frame
        invariant forall x :: x in residueContacts <==> x in Contacted(universe, cutoff, targets, frame)
        invariant forall x :: x in residueContacts ==> residueContacts[x] == ContactFrames(universe, cutoff, targets, x, frame)
      {
        totalFrames := totalFrames + 1;
        var frameContacts := ContactsInFrame(targets, cutoff, frame);
        forall x
          ensures x !in residueContacts ==> ContactFrames(universe, cutoff, targets, x, frame) == 0
        {
          ContactFramesBounds(universe, cutoff, targets, x, frame);
        }
        residueContacts := CountFrame(residueContacts, frameContacts);
      }
      if totalFrames == 0 {
        assert forall x :: x !in residueContacts;
        assert residueContacts == map[];
      }
      var nearbyResids := FilterByOccupancy(residueContacts, totalFrames, occupancyThreshold);
      forall x
        ensures x in nearbyResids <==> x in TrajectoryNearby(universe, cutoff, targets, occupancyThreshold)
      {
      }
      r := Success(nearbyResids);
    }

    /** One `resid` part per target residue, appended in order. */
    static method BuildTargetParts(targetResids: seq<int>) returns (parts: seq<string>)
      ensures parts == TargetParts(targetResids)
    {
      parts := [];
      ghost var all := TargetParts(targetResids);
      for k := 0 to |targetResids|
        invariant parts == all[..k]
      {
        assert all[..k + 1] == all[..k] + [ResidPart(targetResids[k])];
        parts := parts + [ResidPart(targetResids[k])];
      }
      assert all[..|targetResids|] == all;
    }

    /** The selection string, built by extending the list of parts. */
    static method BuildSelectionString(targetResids: seq<int>, targetIndices: seq<nat>, nearbyResids: set<int>)
      returns (combined: string)
      ensures combined == SelectionString(targetResids, targetIndices, nearbyResids)
    {
      var parts: seq<string>;
      if |targetResids| > 0 {
        parts := BuildTargetParts(targetResids);
      } else {
        parts := [PlaceholderPart];
      }
      if nearbyResids != {} {
        parts := parts + ["resid " + JoinInts(SortedSet(nearbyResids))];
      }
      assert parts == SelectionParts(targetResids, nearbyResids);
      combined := CombineParts(parts);
      if Contains(combined, PlaceholderWord) {
        combined := ReplaceAll(combined, PlaceholderPart, "index " + JoinInts(targetIndices));
      }
    }

    /** `_create_solute_selection`: the atoms of the selection string, or the fallback's. */
    method CreateSoluteSelection(targets: seq<Atom>, nearbyResids: set<int>) returns (r: Result<seq<Atom>, AnalysisError>)
      ensures r == SoluteSelection(universe, targets, nearbyResids)
    {
      var combined := BuildSelectionString(universe.residuesOf(targets), Indices(targets), nearbyResids);
      var selected := universe.select(combined);
      if selected.Some? {
        return Success(selected.value);
      }
      var nearbyAtoms := universe.select(FallbackSelection(universe, nearbyResids));
      if nearbyAtoms.None? {
        return Failure(SelectionFailed);
      }
      r := Success(targets + nearbyAtoms.value);
    }

    /**
     * `analyze_target_and_environment`: the target, the nearby residues by
     * the chosen analysis and the solute atoms, stored in the fields as they
     * are computed; the counts are the sizes, and the label names the
     * analysis.
     */
    method AnalyzeTargetAndEnvironment(targetSelection: string, cutoff: real, useTrajectory: bool,
                                       occupancyThreshold: real)
      returns (r: Result<AnalysisResults, AnalysisError>)
      modifies this
      requires Valid()
      ensures Valid()
      ensures var target := TargetRegion(universe, targetSelection);
        r.Success? <==>
          && target.Success? && (useTrajectory ==> hasTrajectory)
          && SoluteSelection(universe, target.value,
                             Nearby(universe, target.value, cutoff, useTrajectory, occupancyThreshold)).Success?
      ensures TargetRegion(universe, targetSelection).Failure? ==>
        && r == Failure(TargetRegion(universe, targetSelection).error)
        && targetAtoms == old(targetAtoms) && nearbyResidues == old(nearbyResidues) && soluteAtoms == old(soluteAtoms)
      ensures TargetRegion(universe, targetSelection).Success? && useTrajectory && !hasTrajectory ==>
        && r == Failure(TrajectoryRequired)
        && targetAtoms == Some(TargetRegion(universe, targetSelection).value)
        && nearbyResidues == old(nearbyResidues) && soluteAtoms == old(soluteAtoms)
      ensures var target := TargetRegion(universe, targetSelection);
        target.Success? && (useTrajectory ==> hasTrajectory) ==>
          var nearby := Nearby(universe, target.value, cutoff, useTrajectory, occupancyThreshold);
          && targetAtoms == Some(target.value)
          && nearbyResidues == Some(nearby)
          && (SoluteSelection(universe, target.value, nearby).Failure? ==>
                r == Failure(SoluteSelection(universe, target.value, nearby).error) && soluteAtoms == old(soluteAtoms))
      ensures r.Success? ==>
        var res := r.value;
        && Success(res.targetAtoms) == TargetRegion(universe, targetSelection)
        && res.nearbyResidues == Nearby(universe, res.targetAtoms, cutoff, useTrajectory, occupancyThreshold)
        && Success(res.soluteAtoms) == SoluteSelection(universe, res.targetAtoms, res.nearbyResidues)
        && res.targetAtomCount == |res.targetAtoms|
        && res.nearbyResidueCount == |res.nearbyResidues|
        && res.soluteAtomCount == |res.soluteAtoms|
        && res.analysisMethod == (if useTrajectory then "trajectory" else "static")
        && res.totalFrames == (if useTrajectory then Some(universe.frames) else None)
        && res.occupancyThreshold == (if useTrajectory then Some(occupancyThreshold) else None)
        && targetAtoms == Some(res.targetAtoms)
        && nearbyResidues == Some(res.nearbyResidues)
        && soluteAtoms == Some(res.soluteAtoms)
    {
      var target := IdentifyTargetRegion(targetSelection);
      if target.Failure? {
        return Failure(target.error);
      }
      var targets := target.value;
      var nearbyResids: set<int>;
      if useTrajectory {
        var found := FindNearbyResiduesTrajectory(targets, cutoff, occupancyThreshold);
        if found.Failure? {
          return Failure(found.error);
        }
        nearbyResids := found.value;
      } else {
        nearbyResids := FindNearbyResiduesStatic(targets, cutoff);
      }
      nearbyResidues := Some(nearbyResids);
      var solute := CreateSoluteSelection(targets, nearbyResids);
      if solute.Failure? {
        return Failure(solute.error);
      }
      soluteAtoms := Some(solute.value);
      r := Success(AnalysisResults(
        targets, |targets|, nearbyResids, |nearbyResids|, solute.value, |solute.value|,
        if useTrajectory then "trajectory" else "static",
        if useTrajectory then Some(universe.frames) else None,
        if useTrajectory then Some(occupancyThreshold) else None));
    }

    /**
     * `get_solute_selection_data`: the indices of the target and solute atoms
     * and the nearby residue numbers, from the given results or else from the
     * stored ones, which must exist.
     */
    method GetSoluteSelectionData(analysisResults: Option<AnalysisResults>) returns (r: Result<SelectionData, AnalysisError>)
      requires Valid()
      ensures analysisResults.Some? ==>
        var res := analysisResults.value;
        r == Success(SelectionData(Indices(res.targetAtoms), res.nearbyResidues, Indices(res.soluteAtoms)))
      ensures analysisResults.None? && (soluteAtoms.None? || targetAtoms.None?) ==> r == Failure(NoAnalysisResults)
      ensures analysisResults.None? && soluteAtoms.Some? && targetAtoms.Some? ==>
        r == Success(SelectionData(Indices(targetAtoms.value), nearbyResidues.value, Indices(soluteAtoms.value)))
    {
      var targets: seq<Atom>, nearby: set<int>, solute: seq<Atom>;
      if analysisResults.None? {
        if soluteAtoms.None? || targetAtoms.None? {
          return Failure(NoAnalysisResults);
        }
        targets, nearby, solute := targetAtoms.value, nearbyResidues.value, soluteAtoms.value;
      } else {
        var res := analysisResults.value;
        targets, nearby, solute := res.targetAtoms, res.nearbyResidues, res.soluteAtoms;
      }
      r := Success(SelectionData(Indices(targets), nearby, Indices(solute)));
    }
  }

  // ---------------------------------------------------------------------
  // Lemmas
  // ---------------------------------------------------------------------

  /** A set with no member is the empty set. */
  lemma SetHasMember(s: set<int>)
    ensures s == {} || exists x :: x in s
  {
    var empty: set<int> := {};
    if forall x :: x !in s {
      assert s == empty;
    }
  }

  lemma {:induction false} MinExists(s: set<int>)
    requires s != {}
    ensures exists m :: m in s && forall x :: x in s ==> m <= x
  {
    SetHasMember(s);
    var x :| x in s;
    if s != {x} {
      MinExists(s - {x});
      var y :| y in s - {x} && forall z :: z in s - {x} ==> y <= z;
      var m := if x < y then x else y;
      forall z | z in s
        ensures m <= z
      {
        if z != x {
          assert z in s - {x};
        }
      }
    } else {
      assert forall z :: z in s ==> x <= z;
    }
  }

  /** The residues one target atom touches: exactly those of the protein atoms it is in contact with. */
  lemma {:induction false} AtomContactsSpec(u: Universe, frame: nat, cutoff: real, t: Atom, ps: seq<Atom>, r: int)
    ensures r in AtomContacts(u, frame, cutoff, t, ps) <==>
      exists j :: 0 <= j < |ps| && InContact(u, frame, cutoff, t, ps[j]) && ps[j].resid == r
  {
    if ps != [] {
      var init := ps[..|ps| - 1];
      AtomContactsSpec(u, frame, cutoff, t, init, r);
      assert forall j :: 0 <= j < |init| ==> init[j] == ps[j];
    }
  }

  /**
   * The static result: every residue of a protein atom within the cutoff
   * (inclusive) of some target atom of a different residue. Exclusion is per
   * pair, so a residue holding target atoms is included when another target
   * residue touches it.
   */
  lemma {:induction false} FrameContactsSpec(u: Universe, frame: nat, cutoff: real, targets: seq<Atom>, r: int)
    ensures r in FrameContacts(u, frame, cutoff, targets) <==> Touched(u, frame, cutoff, targets, r)
  {
    if targets != [] {
      var init := targets[..|targets| - 1];
      var last := targets[|targets| - 1];
      FrameContactsSpec(u, frame, cutoff, init, r);
      AtomContactsSpec(u, frame, cutoff, last, u.protein, r);
      if Touched(u, frame, cutoff, targets, r) {
        var i, j :| 0 <= i < |targets| && 0 <= j < |u.protein|
          && InContact(u, frame, cutoff, targets[i], u.protein[j]) && u.protein[j].resid == r;
        if i < |init| {
          assert init[i] == targets[i];
        }
      }
      if Touched(u, frame, cutoff, init, r) {
        var i, j :| 0 <= i < |init| && 0 <= j < |u.protein|
          && InContact(u, frame, cutoff, init[i], u.protein[j]) && u.protein[j].resid == r;
        assert init[i] == targets[i];
      }
    }
  }

  /** A residue's counter rises at most once per frame, so it never exceeds the number of frames; it is positive exactly for the residues touched. */
  lemma {:induction false} ContactFramesBounds(u: Universe, cutoff: real, targets: seq<Atom>, r: int, n: nat)
    ensures ContactFrames(u, cutoff, targets, r, n) <= n
    ensures ContactFrames(u, cutoff, targets, r, n) > 0 <==> r in Contacted(u, cutoff, targets, n)
  {
    if n > 0 {
      ContactFramesBounds(u, cutoff, targets, r, n - 1);
    }
  }

  /**
   * A residue is kept exactly when its occupancy reaches the threshold, the
   * boundary included; a residue never touched is never kept, whatever the
   * threshold.
   */
  lemma TrajectoryNearbySpec(u: Universe, cutoff: real, targets: seq<Atom>, threshold: real, r: int)
    ensures r in TrajectoryNearby(u, cutoff, targets, threshold) <==>
      u.frames > 0 && ContactFrames(u, cutoff, targets, r, u.frames) > 0 && Occupancy(u, cutoff, targets, r) >= threshold
    ensures ContactFrames(u, cutoff, targets, r, u.frames) <= u.frames
  {
    ContactFramesBounds(u, cutoff, targets, r, u.frames);
  }

  /** With a single frame and a threshold in (0, 1], the occupancy analysis finds what the static one finds. */
  lemma SingleFrameMatchesStatic(u: Universe, cutoff: real, targets: seq<Atom>, threshold: real)
    requires u.frames == 1 && 0.0 < threshold <= 1.0
    ensures TrajectoryNearby(u, cutoff, targets, threshold) == FrameContacts(u, CurrentFrame, cutoff, targets)
  {
    assert Contacted(u, cutoff, targets, 1) == FrameContacts(u, CurrentFrame, cutoff, targets);
    forall r
      ensures r in TrajectoryNearby(u, cutoff, targets, threshold) <==> r in FrameContacts(u, CurrentFrame, cutoff, targets)
    {
      if r in FrameContacts(u, CurrentFrame, cutoff, targets) {
        assert ContactFrames(u, cutoff, targets, r, 1) == 1;
      }
    }
  }

  /** A string lacking a character `c` contains nothing that has `c`. */
  lemma AbsentForLackingChar(s: string, q: string, c: char)
    requires c !in s && c in q
    ensures Absent(s, q)
  {
    var m :| 0 <= m < |q| && q[m] == c;
    forall j | 0 <= j <= |s|
      ensures !StartsWith(s[j..], q)
    {
      if j + |q| <= |s| {
        assert s[j..][..|q|][m] == s[j + m] != c;
      }
    }
  }

  lemma {:induction false} JoinLacks(ws: seq<string>, sep: string, c: char)
    requires c !in sep && forall k :: 0 <= k < |ws| ==> c !in ws[k]
    ensures c !in Join(ws, sep)
  {
    if |ws| > 1 {
      JoinLacks(ws[1..], sep, c);
    }
  }

  lemma IntToStringLacksUnderscore(i: int)
    ensures '_' !in IntToString(i)
  {
    var digits := if i < 0 then NatToString(-i) else NatToString(i);
    assert AllDigits(digits);
  }

  lemma JoinIntsLacksUnderscore(xs: seq<int>)
    ensures '_' !in JoinInts(xs)
  {
    var ws := seq(|xs|, k requires 0 <= k < |xs| => IntToString(xs[k]));
    forall k | 0 <= k < |ws|
      ensures '_' !in ws[k]
    {
      IntToStringLacksUnderscore(xs[k]);
    }
    JoinLacks(ws, " ", '_');
  }

  /** No part of a target with residues mentions the placeholder: each is `resid` and numbers. */
  lemma ResidueTargetPartsLackUnderscore(resids: seq<int>, nearby: set<int>)
    requires |resids| > 0
    ensures forall k :: 0 <= k < |SelectionParts(resids, nearby)| ==> '_' !in SelectionParts(resids, nearby)[k]
  {
    var parts := SelectionParts(resids, nearby);
    forall k | 0 <= k < |parts|
      ensures '_' !in parts[k]
    {
      if k < |resids| {
        IntToStringLacksUnderscore(resids[k]);
      } else {
        JoinIntsLacksUnderscore(SortedSet(nearby));
      }
    }
  }

  /** Combining parts adds only parentheses and `or`. */
  lemma CombinedLacks(parts: seq<string>, c: char)
    requires |parts| > 0 && c !in "() or"
    requires forall k :: 0 <= k < |parts| ==> c !in parts[k]
    ensures c !in CombineParts(parts)
  {
    if |parts| > 1 {
      var ps := Parenthesised(parts);
      forall k | 0 <= k < |ps|
        ensures c !in ps[k]
      {
        assert ps[k] == "(" + parts[k] + ")";
      }
      JoinLacks(ps, " or ", c);
    }
  }

  /**
   * When the target has residues, the selection string is its parts
   * combined as they are: one `resid` part per target residue, in order,
   * then one for the sorted nearby residues; no part mentions the
   * placeholder, so no replacement happens. One residue with nothing nearby
   * is selected bare, without parentheses.
   */
  lemma SelectionForResidueTarget(resids: seq<int>, indices: seq<nat>, nearby: set<int>)
    requires |resids| > 0
    ensures var parts := SelectionParts(resids, nearby);
      && |parts| == |resids| + (if nearby == {} then 0 else 1)
      && (forall k :: 0 <= k < |resids| ==> parts[k] == ResidPart(resids[k]))
      && (nearby != {} ==> parts[|resids|] == "resid " + JoinInts(SortedSet(nearby)))
      && SelectionString(resids, indices, nearby) == CombineParts(parts)
    ensures '_' !in SelectionString(resids, indices, nearby)
    ensures |resids| == 1 && nearby == {} ==> SelectionString(resids, indices, nearby) == ResidPart(resids[0])
  {
    var parts := SelectionParts(resids, nearby);
    ResidueTargetPartsLackUnderscore(resids, nearby);
    CombinedLacks(parts, '_');
    var combined := CombineParts(parts);
    assert PlaceholderWord[9] == '_';
    AbsentForLackingChar(combined, PlaceholderWord, '_');
    ContainsIffNotAbsent(combined, PlaceholderWord);
  }

  /** A string holds any of its middle pieces. */
  lemma ContainsMiddle(a: string, w: string, b: string)
    ensures Contains(a + w + b, w)
  {
    var s := a + w + b;
    assert s[|a|..][..|w|] == w;
    ContainsIffNotAbsent(s, w);
  }

  /**
   * Replacing every `p` in a string holding `p` once, after at most one
   * character that cannot begin `p`, followed by text lacking a character of `p`.
   */
  lemma ReplaceSingle(pre: string, p: string, tail: string, r: string, c: char)
    requires p != [] && c in p && c !in tail
    requires |pre| <= 1 && (pre != [] ==> pre[0] != p[0])
    ensures ReplaceAll(pre + p + tail, p, r) == pre + r + tail
  {
    var s := pre + p + tail;
    var k := |pre|;
    assert s[k..][..|p|] == p;
    if pre != [] {
      assert s[..|p|][0] != p[0];
    }
    var found := Find(s, p);
    assert found == Some(k);
    assert s[..k] == pre;
    assert s[k + |p|..] == tail;
    AbsentForLackingChar(tail, p, c);
    ContainsIffNotAbsent(tail, p);
  }

  /** Two parts are combined parenthesised, joined by `or`. */
  lemma CombineTwo(a: string, b: string)
    ensures CombineParts([a, b]) == "(" + a + ") or (" + b + ")"
  {
    var ps := Parenthesised([a, b]);
    assert ps == ["(" + a + ")", "(" + b + ")"];
    assert Join(ps, " or ") == ps[0] + " or " + Join(ps[1..], " or ");
    assert "(" + a + ")" + " or " + "(" + b + ")" == "(" + a + ") or (" + b + ")";
  }

  /** The parts of a target without residues, combined: the placeholder part alone or before the nearby part. */
  lemma CombinedWithoutResidues(nearby: set<int>, nearbyPart: string)
    requires nearbyPart == "resid " + JoinInts(SortedSet(nearby))
    ensures CombineParts(SelectionParts([], nearby))
        == if nearby == {} then PlaceholderPart else "(" + PlaceholderPart + ") or (" + nearbyPart + ")"
  {
    if nearby != {} {
      assert SelectionParts([], nearby) == [PlaceholderPart, nearbyPart];
      CombineTwo(PlaceholderPart, nearbyPart);
    } else {
      assert SelectionParts([], nearby) == [PlaceholderPart];
    }
  }

  /** Where the placeholder part stands once, the replacement puts the index query in its place. */
  lemma ReplacePlaceholderIn(pre: string, tail: string, r: string)
    requires pre == [] || pre == "("
    requires '_' !in tail
    ensures Contains(pre + PlaceholderPart + tail, PlaceholderWord)
    ensures ReplaceAll(pre + PlaceholderPart + tail, PlaceholderPart, r) == pre + r + tail
  {
    var lead := "same residue as (";
    assert PlaceholderPart == lead + PlaceholderWord + ")";
    assert PlaceholderPart[26] == '_';
    Regroup(pre, lead, PlaceholderWord, ")", tail);
    ContainsMiddle(pre + lead, PlaceholderWord, ")" + tail);
    ReplaceSingle(pre, PlaceholderPart, tail, r, '_');
  }

  lemma Regroup(pre: string, lead: string, w: string, close: string, tail: string)
    ensures pre + (lead + w + close) + tail == (pre + lead) + w + (close + tail)
  {
  }

  lemma EmptyAround(x: string)
    ensures [] + x + [] == x
  {
  }

  lemma RegroupTail(x: string, y: string)
    ensures "(" + x + (") or (" + y + ")") == "(" + x + ") or (" + y + ")"
  {
  }

  /** The selection string once the combined parts are known to hold the placeholder. */
  lemma SelectionStringReplaces(resids: seq<int>, indices: seq<nat>, nearby: set<int>, combined: string)
    requires combined == CombineParts(SelectionParts(resids, nearby))
    requires Contains(combined, PlaceholderWord)
    ensures SelectionString(resids, indices, nearby) == ReplaceAll(combined, PlaceholderPart, "index " + JoinInts(indices))
  {
  }

  /**
   * A target without residues is selected by its atom indices: the whole
   * `same residue as (...)` part gives way to `index ...`, alone or joined
   * with the sorted nearby residues.
   */
  lemma SelectionForTargetWithoutResidues(indices: seq<nat>, nearby: set<int>)
    ensures var byIndex := "index " + JoinInts(indices);
      var nearbyPart := "resid " + JoinInts(SortedSet(nearby));
      SelectionString([], indices, nearby) ==
        if nearby == {} then byIndex else "(" + byIndex + ") or (" + nearbyPart + ")"
  {
    if nearby == {} {
      SelectionByIndexAlone(indices);
    } else {
      SelectionByIndexWithNearby(indices, nearby);
    }
  }

  /** Nothing nearby: the index query alone. */
  lemma SelectionByIndexAlone(indices: seq<nat>)
    ensures SelectionString([], indices, {}) == "index " + JoinInts(indices)
  {
    var byIndex := "index " + JoinInts(indices);
    var combined := CombineParts(SelectionParts([], {}));
    CombinedWithoutResidues({}, "resid " + JoinInts(SortedSet({})));
    EmptyAround(PlaceholderPart);
    EmptyAround(byIndex);
    ReplacePlaceholderIn([], [], byIndex);
    SelectionStringReplaces([], indices, {}, combined);
  }

  /** Residues nearby: the index query, then the sorted nearby residues. */
  lemma SelectionByIndexWithNearby(indices: seq<nat>, nearby: set<int>)
    requires nearby != {}
    ensures SelectionString([], indices, nearby)
      == "(" + ("index " + JoinInts(indices)) + ") or (" + ("resid " + JoinInts(SortedSet(nearby))) + ")"
  {
    var byIndex := "index " + JoinInts(indices);
    var nearbyPart := "resid " + JoinInts(SortedSet(nearby));
    var combined := CombineParts(SelectionParts([], nearby));
    var tail := ") or (" + nearbyPart + ")";
    assert '_' !in tail by {
      JoinIntsLacksUnderscore(SortedSet(nearby));
    }
    assert combined == "(" + PlaceholderPart + tail by {
      CombinedWithoutResidues(nearby, nearbyPart);
      RegroupTail(PlaceholderPart, nearbyPart);
    }
    ReplacePlaceholderIn("(", tail, byIndex);
    assert SelectionString([], indices, nearby) == "(" + byIndex + tail by {
      SelectionStringReplaces([], indices, nearby, combined);
    }
    RegroupTail(byIndex, nearbyPart);
  }
}
