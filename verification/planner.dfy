/**
 * The conversion planner of ccx2paraview.py: reconciling the node count,
 * building the list of zero-padded step strings and naming the output files.
 */
module Planner {
  import opened Frd
  import opened Sorting
  import opened Decimal
  import opened Text

  /** set([len(b.results) for b in p.result_blocks]) */
  function ResultLengths(blocks: seq<ResultBlock>): (lengths: set<int>)
    ensures forall x :: x in lengths ==> x >= 0
    ensures forall i :: 0 <= i < |blocks| ==> |blocks[i].results| in lengths
    ensures |lengths| <= |blocks|
  {
    LengthsCount(blocks);
    set b | b in blocks :: |b.results|
  }

  /** There are no more distinct lengths than blocks. */
  lemma {:induction false} LengthsCount(blocks: seq<ResultBlock>)
    ensures var lengths := (set b | b in blocks :: |b.results|); |lengths| <= |blocks|
  {
    if blocks != [] {
      var init := blocks[..|blocks| - 1];
      LengthsCount(init);
      assert blocks == init + [blocks[|blocks| - 1]];
      assert (set b | b in blocks :: |b.results|) == (set b | b in init :: |b.results|) + {|blocks[|blocks| - 1].results|};
    }
  }

  /**
   * The node count used for the output. The result-block lengths are sorted
   * descending without duplicates; three distinct lengths give the middle
   * one, a single length gives that length, anything else the declared numnod.
   */
  function ReconcileNodeCount(blocks: seq<ResultBlock>, numnod: nat): (nn: nat)
    ensures |ResultLengths(blocks)| == 1 ==> ResultLengths(blocks) == {nn}
    ensures |ResultLengths(blocks)| == 3 ==>
      && nn in ResultLengths(blocks)
      && (exists hi :: hi in ResultLengths(blocks) && nn < hi)
      && (exists lo :: lo in ResultLengths(blocks) && lo < nn)
    ensures |ResultLengths(blocks)| != 1 && |ResultLengths(blocks)| != 3 ==> nn == numnod
  {
    var lengths := ResultLengths(blocks);
    var nns := SortedSetDescending(lengths);
    if |nns| == 3 then
      ThreeElems(nns);
      assert nns[0] > nns[1] > nns[2];
      nns[1]
    else if |nns| == 1 then
      assert nns == [nns[0]];
      nns[0]
    else numnod
  }

  /**
   * With three distinct lengths the chosen one is the second of the
   * descending sort: the lengths are exactly lo < nn < hi.
   */
  lemma ReconcileThreeIsMiddle(blocks: seq<ResultBlock>, numnod: nat) returns (lo: int, hi: int)
    requires |ResultLengths(blocks)| == 3
    ensures ResultLengths(blocks) == {lo, ReconcileNodeCount(blocks, numnod), hi}
    ensures lo < ReconcileNodeCount(blocks, numnod) < hi
  {
    lo, hi := SecondOfThree(ResultLengths(blocks));
  }

  /** sorted(set([b.numstep for b in p.result_blocks])) */
  function StepNumbers(blocks: seq<ResultBlock>): (nums: seq<int>)
    ensures StrictlyAscending(nums)
    ensures Elems(nums) == set b | b in blocks :: b.numstep as int
    ensures forall i :: 0 <= i < |nums| ==> nums[i] >= 0
    ensures |nums| == 0 <==> blocks == []
  {
    var steps := set b | b in blocks :: b.numstep as int;
    var nums := SortedSet(steps);
    assert forall i :: 0 <= i < |nums| ==> nums[i] in steps;
    assert blocks != [] ==> blocks[0].numstep as int in steps;
    nums
  }

  /** '{:0{width}}'.format(s, width=width) for every step number s. */
  function PadSteps(nums: seq<int>, width: nat): (padded: seq<string>)
    requires forall i :: 0 <= i < |nums| ==> nums[i] >= 0
    ensures |padded| == |nums|
    ensures forall i :: 0 <= i < |nums| ==> padded[i] == ZeroPad(nums[i] as nat, width)
  {
    seq(|nums|, i requires 0 <= i < |nums| => ZeroPad(nums[i] as nat, width))
  }

  /**
   * Padded step strings read back as their step numbers, are never shorter
   * than the width or than str(step), and are distinct when the numbers are.
   */
  lemma PadStepsReadBack(nums: seq<int>, width: nat)
    requires forall i :: 0 <= i < |nums| ==> nums[i] >= 0
    requires StrictlyAscending(nums)
    ensures forall i :: 0 <= i < |nums| ==> ParseDecimal(PadSteps(nums, width)[i]) == nums[i]
    ensures forall i :: 0 <= i < |nums| ==>
      |PadSteps(nums, width)[i]| >= width && |PadSteps(nums, width)[i]| >= |DecimalString(nums[i] as nat)|
    ensures forall i, j :: 0 <= i < j < |nums| ==> PadSteps(nums, width)[i] != PadSteps(nums, width)[j]
  {
    var padded := PadSteps(nums, width);
    forall i | 0 <= i < |nums| ensures ParseDecimal(padded[i]) == nums[i] {
      ZeroPadRoundTrip(nums[i] as nat, width);
    }
  }

  /**
   * The step strings: each step number zero-padded to the number of digits
   * of the number of steps, or ['1'] when there are no result blocks.
   */
  function StepList(blocks: seq<ResultBlock>): (steps: seq<string>)
    ensures blocks == [] ==> steps == ["1"]
    ensures blocks != [] ==> steps == PadSteps(StepNumbers(blocks), |DecimalString(|StepNumbers(blocks)|)|)
    ensures forall i :: 0 <= i < |steps| ==> AllDigits(steps[i])
  {
    var nums := StepNumbers(blocks);
    var width := |DecimalString(|nums|)|;
    if |nums| == 0 then ["1"] else PadSteps(nums, width)
  }

  /**
   * With result blocks present there is one step string per distinct step
   * number; each is at least as wide as len(str(len(steps))), reads back as
   * its step number, and the strings read back in strictly ascending order.
   */
  lemma StepListReadsBack(blocks: seq<ResultBlock>, steps: seq<string>)
    requires blocks != [] && StepList(blocks) == steps
    ensures |steps| == |set b | b in blocks :: b.numstep as int|
    ensures forall i :: 0 <= i < |steps| ==>
      && AllDigits(steps[i])
      && ParseDecimal(steps[i]) == StepNumbers(blocks)[i]
      && |steps[i]| >= |DecimalString(|steps|)|
    ensures forall i, j :: 0 <= i < j < |steps| ==> ParseDecimal(steps[i]) < ParseDecimal(steps[j])
    ensures forall i, j :: 0 <= i < j < |steps| ==> steps[i] != steps[j]
  {
    var nums := StepNumbers(blocks);
    AscendingCard(nums);
    PaddedReadBack(nums, |DecimalString(|nums|)|, steps);
  }

  lemma PaddedReadBack(nums: seq<int>, width: nat, steps: seq<string>)
    requires forall i :: 0 <= i < |nums| ==> nums[i] >= 0
    requires StrictlyAscending(nums)
    requires steps == PadSteps(nums, width)
    ensures |steps| == |nums|
    ensures forall i :: 0 <= i < |steps| ==>
      AllDigits(steps[i]) && ParseDecimal(steps[i]) == nums[i] && |steps[i]| >= width
    ensures forall i, j :: 0 <= i < j < |steps| ==> ParseDecimal(steps[i]) < ParseDecimal(steps[j])
    ensures forall i, j :: 0 <= i < j < |steps| ==> steps[i] != steps[j]
  {
    PadStepsReadBack(nums, width);
  }

  /**
   * The output file name for one step: each ".frd" in the input name is
   * replaced by ".<step>.<fmt>" when there are several steps, by ".<fmt>"
   * otherwise.
   */
  function OutputFileName(fileName: string, step: string, fmt: string, multiStep: bool): (name: string)
    ensures !Occurs(fileName, ".frd") ==> name == fileName
    ensures |fileName| >= 4 && fileName[|fileName| - 4..] == ".frd" && !Occurs(fileName[..|fileName| - 4], ".frd") ==>
      name == fileName[..|fileName| - 4] + (if multiStep then "." + step + "." + fmt else "." + fmt)
  {
    ReplaceNameCases(fileName, "." + step + "." + fmt);
    ReplaceNameCases(fileName, "." + fmt);
    if multiStep then ReplaceAll(fileName, ".frd", "." + step + "." + fmt)
    else ReplaceAll(fileName, ".frd", "." + fmt)
  }

  /** One output file name per step string, in step order. */
  function OutputFileNames(fileName: string, steps: seq<string>, fmt: string): (names: seq<string>)
    ensures |names| == |steps|
    ensures forall i :: 0 <= i < |steps| ==>
      names[i] == OutputFileName(fileName, steps[i], fmt, |steps| > 1)
  {
    seq(|steps|, i requires 0 <= i < |steps| => OutputFileName(fileName, steps[i], fmt, |steps| > 1))
  }

  /**
   * For an input named "<job>.frd": a single step (in particular no result
   * blocks at all) gives one file "<job>.<fmt>"; several steps give
   * "<job>.<step>.<fmt>" per step.
   */
  lemma JobFileNames(job: string, blocks: seq<ResultBlock>, fmt: string, steps: seq<string>, names: seq<string>)
    requires !Occurs(job, ".frd")
    requires StepList(blocks) == steps && OutputFileNames(job + ".frd", steps, fmt) == names
    ensures blocks == [] ==> names == [job + ("." + fmt)]
    ensures |steps| == 1 ==> names == [job + ("." + fmt)]
    ensures |steps| > 1 ==> forall i :: 0 <= i < |steps| ==> names[i] == job + ("." + steps[i] + "." + fmt)
  {
    JobNames(job, fmt, steps, names);
  }

  lemma JobNames(job: string, fmt: string, steps: seq<string>, names: seq<string>)
    requires !Occurs(job, ".frd")
    requires |names| == |steps|
    requires forall i :: 0 <= i < |steps| ==> names[i] == OutputFileName(job + ".frd", steps[i], fmt, |steps| > 1)
    ensures |steps| == 1 ==> names == [job + ("." + fmt)]
    ensures |steps| > 1 ==> forall i :: 0 <= i < |steps| ==> names[i] == job + ("." + steps[i] + "." + fmt)
  {
    if |steps| == 1 {
      ReplaceExtension(job, "." + fmt);
      assert names == [names[0]];
    }
    if |steps| > 1 {
      forall i | 0 <= i < |steps| ensures names[i] == job + ("." + steps[i] + "." + fmt) {
        ReplaceExtension(job, "." + steps[i] + "." + fmt);
      }
    }
  }

  /**
   * With several steps and an input name containing ".frd", the output file
   * names are pairwise distinct: no step overwrites another step's file.
   */
  lemma OutputFileNamesDistinct(fileName: string, blocks: seq<ResultBlock>, fmt: string, steps: seq<string>, names: seq<string>)
    requires Occurs(fileName, ".frd")
    requires StepList(blocks) == steps && OutputFileNames(fileName, steps, fmt) == names
    requires |steps| > 1
    ensures forall i, j :: 0 <= i < j < |names| ==> names[i] != names[j]
  {
    StepListReadsBack(blocks, steps);
    DistinctTagsDistinctNames(fileName, fmt, steps, names);
  }

  lemma DistinctTagsDistinctNames(fileName: string, fmt: string, steps: seq<string>, names: seq<string>)
    requires Occurs(fileName, ".frd")
    requires forall i :: 0 <= i < |steps| ==> AllDigits(steps[i])
    requires forall i, j :: 0 <= i < j < |steps| ==> steps[i] != steps[j]
    requires |names| == |steps|
    requires forall i :: 0 <= i < |steps| ==> names[i] == ReplaceAll(fileName, ".frd", "." + steps[i] + "." + fmt)
    ensures forall i, j :: 0 <= i < j < |names| ==> names[i] != names[j]
  {
    forall i, j | 0 <= i < j < |steps| ensures names[i] != names[j] {
      var k := DigitsThenDotDiffer(steps[i], steps[j]);
      StepTagAt(steps[i], fmt, k);
      StepTagAt(steps[j], fmt, k);
      ReplaceAllDistinct(fileName, ".frd", "." + steps[i] + "." + fmt, "." + steps[j] + "." + fmt, 1 + k);
    }
  }

  /** Position 1 + k of ".<d>.<fmt>" is position k of "<d>.". */
  lemma StepTagAt(d: string, fmt: string, k: nat)
    requires k <= |d|
    ensures 1 + k < |"." + d + "." + fmt|
    ensures ("." + d + "." + fmt)[1 + k] == (d + ".")[k]
  {
    if k < |d| {
      assert ("." + d + "." + fmt)[1 + k] == d[k];
    } else {
      assert ("." + d + "." + fmt)[1 + k] == '.';
    }
  }

  /**
   * Two different digit strings, each followed by '.', differ at a position
   * both of them have.
   */
  lemma {:induction false} DigitsThenDotDiffer(a: string, b: string) returns (k: nat)
    requires AllDigits(a) && AllDigits(b) && a != b
    ensures k <= |a| && k <= |b|
    ensures (a + ".")[k] != (b + ".")[k]
  {
    if a == [] {
      k := 0;
      assert IsDigit(b[0]);
    } else if b == [] {
      k := 0;
      assert IsDigit(a[0]);
    } else if a[0] != b[0] {
      k := 0;
    } else {
      assert a == [a[0]] + a[1..] && b == [b[0]] + b[1..];
      var k' := DigitsThenDotDiffer(a[1..], b[1..]);
      k := k' + 1;
      assert (a + ".")[k] == (a[1..] + ".")[k'];
      assert (b + ".")[k] == (b[1..] + ".")[k'];
    }
  }

}
