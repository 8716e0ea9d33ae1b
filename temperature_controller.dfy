/**
 * The temperature controller of modules/temperature_controller.py, limited
 * to the parts that compute text: the reference temperature and the
 * 1-based solute indices taken at construction, the atom range list, the
 * PLUMED `PARTIAL_TEMPERING` block of one replica and the placeholder
 * substitution in a replica's MDP file.
 *
 * Python's float formatting (`:.1f`, `:.6f`) is not modelled: the
 * formatters are parameters `fmt1` and `fmt6`.
 */
module TemperatureController {
  import opened Wrappers
  import opened PyText
  import opened PyValue
  import opened AtomRanges
  import RG = ReplicaGenerator
  import TC = TemperatureCalculator

  /** The key of the solute data that carries the 0-based atom indices. */
  const SoluteKey: string := "solute_atom_indices"

  const TempPlaceholder: string := "TEMP_PLACEHOLDER"
  const NstepsPlaceholder: string := "NSTEPS_PLACEHOLDER"

  /** Python's `int(x)` of a float: truncation toward zero. */
  function Trunc(x: real): (n: int)
    ensures x >= 0.0 ==> n as real <= x < n as real + 1.0
    ensures x < 0.0 ==> n as real - 1.0 < x <= n as real
  {
    if x >= 0.0 then x.Floor else -((-x).Floor)
  }

  /** `int(production_time_ns * 1000 / dt_ps)` with a 2 fs time step, in exact arithmetic. */
  function NSteps(productionTimeNs: real): int
  {
    Trunc(productionTimeNs * 1000.0 / 0.002)
  }

  /** The PLUMED block around the three values that vary. */
  function TemperingBlock(atoms: string, temp: string, lambda: string): string
  {
    "PARTIAL_TEMPERING ...\n  ATOMS=" + atoms + "\n  TEMP=" + temp + "\n  LAMBDA=" + lambda
      + "\n  LABEL=rest2_scaling\n... PARTIAL_TEMPERING\n\n"
  }

  /** The comment header of a replica's MDP file. */
  function MdpHeader(index: int, temp: string, lambda: string, time: string, nsteps: int): string
  {
    "; Replica " + IntToString(index) + " MDP File\n; Temperature: " + temp
      + " K\n; REST2 scaling factor (λ): " + lambda + "\n; Simulation time: " + time
      + " ns (" + IntToString(nsteps) + " steps)\n\n"
  }

  class Controller {
    const replicas: seq<RG.ReplicaRecord>
    const nReplicas: int
    const temperatures: seq<real>
    const scalingFactors: seq<real>
    /** The reference temperature: the lowest replica temperature. */
    const tRef: real
    /** The solute atoms in PLUMED's 1-based numbering, or none. */
    const soluteAtomIndices: Option<seq<int>>

    /**
     * `TemperatureController(config, replica_data, solute_data)` for a
     * non-empty replica list. `solute_data` is a dictionary; a missing one
     * and an empty one are both falsy and are modelled by the empty map.
     */
    constructor (replicas: seq<RG.ReplicaRecord>, nReplicas: int, soluteData: map<string, seq<int>>)
      requires |replicas| > 0
      ensures this.replicas == replicas && this.nReplicas == nReplicas
      ensures |temperatures| == |replicas| && |scalingFactors| == |replicas|
      ensures forall i :: 0 <= i < |replicas| ==>
        temperatures[i] == replicas[i].temperature && scalingFactors[i] == replicas[i].scalingFactor
      ensures tRef in temperatures && forall i :: 0 <= i < |temperatures| ==> tRef <= temperatures[i]
      ensures soluteAtomIndices.Some? <==> SoluteKey in soluteData
      ensures soluteAtomIndices.Some? ==>
        && |soluteAtomIndices.value| == |soluteData[SoluteKey]|
        && forall i :: 0 <= i < |soluteData[SoluteKey]| ==>
          soluteAtomIndices.value[i] == soluteData[SoluteKey][i] + 1
    {
      this.replicas := replicas;
      this.nReplicas := nReplicas;
      var temps := seq(|replicas|, i requires 0 <= i < |replicas| => replicas[i].temperature);
      temperatures := temps;
      scalingFactors := seq(|replicas|, i requires 0 <= i < |replicas| => replicas[i].scalingFactor);
      tRef := TC.Min(temps);
      if SoluteKey in soluteData {
        var src := soluteData[SoluteKey];
        soluteAtomIndices := Some(seq(|src|, i requires 0 <= i < |src| => src[i] + 1));
      } else {
        soluteAtomIndices := None;
      }
    }

    /** The constructor as called by the pipeline: `min()` of an empty temperature list raises `ValueError`. */
    static method Create(replicaData: RG.ReplicaData, soluteData: map<string, seq<int>>)
      returns (r: Result<Controller, PyError>)
      ensures replicaData.replicas == [] <==> r == Failure(ValueError)
      ensures r.Success? ==>
        && fresh(r.value)
        && r.value.replicas == replicaData.replicas
        && r.value.nReplicas == replicaData.nReplicas
        && |r.value.temperatures| == |replicaData.replicas| && |r.value.scalingFactors| == |replicaData.replicas|
        && (forall i :: 0 <= i < |replicaData.replicas| ==>
              && r.value.temperatures[i] == replicaData.replicas[i].temperature
              && r.value.scalingFactors[i] == replicaData.replicas[i].scalingFactor)
        && |r.value.temperatures| > 0
        && r.value.tRef == TC.Min(r.value.temperatures)
        && (r.value.soluteAtomIndices.Some? <==> SoluteKey in soluteData)
        && (r.value.soluteAtomIndices.Some? ==>
              && |r.value.soluteAtomIndices.value| == |soluteData[SoluteKey]|
              && forall i :: 0 <= i < |soluteData[SoluteKey]| ==>
                   r.value.soluteAtomIndices.value[i] == soluteData[SoluteKey][i] + 1)
    {
      if replicaData.replicas == [] {
        r := Failure(ValueError);
      } else {
        var c := new Controller(replicaData.replicas, replicaData.nReplicas, soluteData);
        MinUnique(c.temperatures, c.tRef);
        r := Success(c);
      }
    }

    /**
     * `_format_atom_list`: group the sorted indices into runs, join them with
     * commas, and wrap a list longer than 80 characters.
     */
    method FormatAtomList(atomIndices: seq<int>) returns (atomList: string)
      ensures atomList == AtomListText(atomIndices)
    {
      if atomIndices == [] {
        return Placeholder;
      }
      var sortedIndices := Sorted(atomIndices);
      var ranges := GroupRanges(sortedIndices);
      atomList := Join(ranges, ",");
      if |atomList| > MaxLine {
        var formattedRanges := WrapRanges(ranges);
        atomList := Join(formattedRanges, LineBreak);
      }
    }

    /** The grouping loop of `_format_atom_list`: one string per run of consecutive indices. */
    method GroupRanges(sortedIndices: seq<int>) returns (ranges: seq<string>)
      requires |sortedIndices| > 0
      ensures ranges == Tokens(Runs(sortedIndices))
    {
      ranges := [];
      ghost var done: seq<(int, int)> := [];
      var start := sortedIndices[0];
      var end := start;
      var i := 1;
      assert sortedIndices[..1] == [sortedIndices[0]];
      while i < |sortedIndices|
        invariant 1 <= i <= |sortedIndices|
        invariant Runs(sortedIndices[..i]) == done + [(start, end)]
        invariant ranges == Tokens(done)
      {
        RunsStep(sortedIndices, i, done, start, end);
        if sortedIndices[i] == end + 1 {
          end := sortedIndices[i];
        } else {
          TokensSnoc(done, (start, end));
          ranges := AppendRange(ranges, start, end);
          done := done + [(start, end)];
          start := sortedIndices[i];
          end := start;
        }
        i := i + 1;
      }
      TokensSnoc(done, (start, end));
      ranges := AppendRange(ranges, start, end);
      assert sortedIndices[..|sortedIndices|] == sortedIndices;
    }

    /** Closing a run: `str(start)` for a single index, `f"{start}-{end}"` otherwise. */
    static method AppendRange(ranges: seq<string>, start: int, end: int) returns (r: seq<string>)
      ensures r == ranges + [Token((start, end))]
    {
      if start == end {
        r := ranges + [IntToString(start)];
      } else {
        r := ranges + [IntToString(start) + "-" + IntToString(end)];
      }
    }

    /** The wrapping loop of `_format_atom_list`. */
    method WrapRanges(ranges: seq<string>) returns (formattedRanges: seq<string>)
      ensures formattedRanges == WrapLines(ranges)
    {
      formattedRanges := [];
      var currentLine: string := "";
      var lineLength := 0;
      var j := 0;
      while j < |ranges|
        invariant 0 <= j <= |ranges|
        invariant (formattedRanges, currentLine) == WrapState(ranges[..j])
        invariant lineLength == |currentLine|
      {
        var rangeStr := ranges[j];
        assert ranges[..j + 1][..j] == ranges[..j];
        if lineLength + |rangeStr| + 1 > MaxLine {
          if currentLine != "" {
            formattedRanges := formattedRanges + [RStrip(currentLine)];
          }
          currentLine := rangeStr;
          lineLength := |rangeStr|;
        } else {
          if currentLine != "" {
            currentLine := currentLine + "," + rangeStr;
            lineLength := lineLength + |rangeStr| + 1;
          } else {
            currentLine := rangeStr;
            lineLength := |rangeStr|;
          }
        }
        j := j + 1;
      }
      assert ranges[..|ranges|] == ranges;
      if currentLine != "" {
        formattedRanges := formattedRanges + [currentLine];
      }
    }

    /** The `ATOMS=` value: the range list of the solute atoms, or the placeholder when there are none. */
    function AtomsField(): (f: string)
      ensures soluteAtomIndices.None? || soluteAtomIndices.value == [] ==> f == Placeholder
      ensures soluteAtomIndices.Some? && soluteAtomIndices.value != [] ==> f == AtomListText(soluteAtomIndices.value)
    {
      if soluteAtomIndices.Some? && |soluteAtomIndices.value| > 0 then AtomListText(soluteAtomIndices.value)
      else Placeholder
    }

    /**
     * `_create_partial_tempering_command`: the replica's temperature and factor
     * are looked up with Python indexing (`IndexError` out of range).
     */
    function PartialTemperingCommand(replicaIndex: int, fmt1: real -> string, fmt6: real -> string)
      : (r: Result<string, PyError>)
      ensures r.Success? <==> At(temperatures, replicaIndex).Success? && At(scalingFactors, replicaIndex).Success?
      ensures r.Failure? ==> r.error == IndexError
    {
      match At(temperatures, replicaIndex)
      case Failure(e) => Failure(e)
      case Success(_) =>
        match At(scalingFactors, replicaIndex)
        case Failure(e) => Failure(e)
        case Success(lambda) => Success(TemperingBlock(AtomsField(), fmt1(tRef), fmt6(lambda)))
    }

    /**
     * `_customize_mdp_for_replica`: every `TEMP_PLACEHOLDER` becomes the
     * formatted temperature, then every `NSTEPS_PLACEHOLDER` the step count,
     * and the replica's header is put in front. The header's factor is
     * looked up with Python indexing, the only way the call can fail.
     */
    function CustomizeMdp(baseMdp: string, replicaIndex: int, temperature: real, productionTimeNs: real,
                          fmt1: real -> string, fmt6: real -> string): (r: Result<string, PyError>)
      ensures r.Success? <==> At(scalingFactors, replicaIndex).Success?
      ensures r.Failure? ==> r.error == IndexError
      ensures r.Success? ==>
        r.value == MdpHeader(replicaIndex, fmt1(temperature), fmt6(At(scalingFactors, replicaIndex).value),
                             fmt1(productionTimeNs), NSteps(productionTimeNs))
                   + SubstitutedBody(baseMdp, fmt1(temperature), NSteps(productionTimeNs))
    {
      var nsteps := NSteps(productionTimeNs);
      var body := ReplaceAll(ReplaceAll(baseMdp, TempPlaceholder, fmt1(temperature)),
                             NstepsPlaceholder, IntToString(nsteps));
      match At(scalingFactors, replicaIndex)
      case Failure(e) => Failure(e)
      case Success(lambda) =>
        Success(MdpHeader(replicaIndex, fmt1(temperature), fmt6(lambda), fmt1(productionTimeNs), nsteps) + body)
    }

    /**
     * Every replica's block carries the same `TEMP=` value, the reference
     * temperature, and its own factor as `LAMBDA=`; with no solute atoms the
     * `ATOMS=` value is the placeholder.
     */
    lemma PartialTemperingFields(i: nat, fmt1: real -> string, fmt6: real -> string)
      requires i < |temperatures| && |scalingFactors| == |temperatures|
      ensures PartialTemperingCommand(i, fmt1, fmt6)
        == Success(TemperingBlock(AtomsField(), fmt1(tRef), fmt6(scalingFactors[i])))
      ensures soluteAtomIndices.None? || soluteAtomIndices.value == [] ==> AtomsField() == Placeholder
      ensures soluteAtomIndices.Some? && soluteAtomIndices.value != [] ==>
        AtomsField() == AtomListText(soluteAtomIndices.value)
    {
    }

    /** Two replicas' blocks differ at most in the `LAMBDA=` line. */
    lemma PartialTemperingSameTemp(i: nat, j: nat, fmt1: real -> string, fmt6: real -> string)
      requires i < |temperatures| && j < |temperatures| && |scalingFactors| == |temperatures|
      requires fmt6(scalingFactors[i]) == fmt6(scalingFactors[j])
      ensures PartialTemperingCommand(i, fmt1, fmt6) == PartialTemperingCommand(j, fmt1, fmt6)
    {
    }

    /**
     * The customised text is the replica's header followed by the template
     * with both placeholders substituted. When the formatted temperature is
     * non-empty and shares no character with `TEMP_PLACEHOLDER`, neither
     * placeholder is left in that part; a template without placeholders is
     * kept as it is.
     */
    lemma CustomizeMdpReplacesPlaceholders(baseMdp: string, replicaIndex: int, temperature: real,
                                          productionTimeNs: real, fmt1: real -> string, fmt6: real -> string)
      requires fmt1(temperature) != [] && Disjoint(fmt1(temperature), TempPlaceholder)
      requires At(scalingFactors, replicaIndex).Success?
      ensures var body := SubstitutedBody(baseMdp, fmt1(temperature), NSteps(productionTimeNs));
        && CustomizeMdp(baseMdp, replicaIndex, temperature, productionTimeNs, fmt1, fmt6)
           == Success(MdpHeader(replicaIndex, fmt1(temperature), fmt6(At(scalingFactors, replicaIndex).value),
                                fmt1(productionTimeNs), NSteps(productionTimeNs)) + body)
        && !Contains(body, TempPlaceholder) && !Contains(body, NstepsPlaceholder)
        && (!Contains(baseMdp, TempPlaceholder) && !Contains(baseMdp, NstepsPlaceholder) ==> body == baseMdp)
    {
      SubstitutedBodyClean(baseMdp, fmt1(temperature), NSteps(productionTimeNs));
    }
  }

  /** The template with `TEMP_PLACEHOLDER` and then `NSTEPS_PLACEHOLDER` replaced everywhere. */
  function SubstitutedBody(baseMdp: string, temp: string, nsteps: int): string
  {
    ReplaceAll(ReplaceAll(baseMdp, TempPlaceholder, temp), NstepsPlaceholder, IntToString(nsteps))
  }

  /** Neither placeholder contains a digit or a minus sign. */
  lemma PlaceholdersAreNotNumeric()
    ensures TempPlaceholder != [] && NstepsPlaceholder != []
    ensures forall j :: 0 <= j < |TempPlaceholder| ==> !IsDigit(TempPlaceholder[j]) && TempPlaceholder[j] != '-'
    ensures forall j :: 0 <= j < |NstepsPlaceholder| ==> !IsDigit(NstepsPlaceholder[j]) && NstepsPlaceholder[j] != '-'
  {
  }

  /**
   * Substituting a non-empty temperature text without placeholder
   * characters, then the step count, leaves neither placeholder behind.
   */
  lemma SubstitutedBodyClean(baseMdp: string, temp: string, nsteps: int)
    requires temp != [] && Disjoint(temp, TempPlaceholder)
    ensures !Contains(SubstitutedBody(baseMdp, temp, nsteps), TempPlaceholder)
    ensures !Contains(SubstitutedBody(baseMdp, temp, nsteps), NstepsPlaceholder)
  {
    PlaceholdersAreNotNumeric();
    var once := ReplaceAll(baseMdp, TempPlaceholder, temp);
    var body := ReplaceAll(once, NstepsPlaceholder, IntToString(nsteps));
    ReplaceAllLeavesAbsent(baseMdp, TempPlaceholder, temp, TempPlaceholder);
    IntToStringDisjoint(nsteps, TempPlaceholder);
    IntToStringDisjoint(nsteps, NstepsPlaceholder);
    ReplaceAllLeavesAbsent(once, NstepsPlaceholder, IntToString(nsteps), TempPlaceholder);
    ReplaceAllLeavesAbsent(once, NstepsPlaceholder, IntToString(nsteps), NstepsPlaceholder);
    ContainsIffNotAbsent(body, TempPlaceholder);
    ContainsIffNotAbsent(body, NstepsPlaceholder);
  }

  /** The minimum is the only value that is in the list and below every element. */
  lemma MinUnique(s: seq<real>, m: real)
    requires m in s && forall i :: 0 <= i < |s| ==> m <= s[i]
    ensures m == TC.Min(s)
  {
    var k :| 0 <= k < |s| && s[k] == TC.Min(s);
    var l :| 0 <= l < |s| && s[l] == m;
  }

  /** A decimal numeral is made of digits and at most a minus sign, none of which is in a pattern of letters and `_`. */
  lemma IntToStringDisjoint(n: int, p: string)
    requires forall j :: 0 <= j < |p| ==> !IsDigit(p[j]) && p[j] != '-'
    ensures IntToString(n) != [] && Disjoint(IntToString(n), p)
  {
    var d := NatToString(if n < 0 then -n else n);
    assert AllDigits(d);
    if n < 0 {
      assert forall i :: 1 <= i < |IntToString(n)| ==> IntToString(n)[i] == d[i - 1];
    }
  }
}
