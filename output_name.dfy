/** Choosing the name the merged workbook is saved under: while a file of
    that name exists, the counter is appended to the current name's stem. */
module OutputNames {
  import opened Text

  /** The name the merge step wants to write. */
  const OutputStem := "Final_Template"
  const OutputExtension := ".xlsm"
  const OutputFileName := OutputStem + OutputExtension

  /** `Path.suffix` applies: the last `.` is neither the first nor the last character. */
  predicate HasSuffix(name: string) {
    var i := LastIndexOf(name, '.');
    0 < i < |name| - 1
  }

  /** `Path.suffix`: from the last `.` on, or empty. */
  function Suffix(name: string): (ext: string)
    ensures HasSuffix(name) ==> ext != [] && ext[0] == '.' && forall j | 0 < j < |ext| :: ext[j] != '.'
    ensures !HasSuffix(name) ==> ext == []
  {
    if HasSuffix(name) then name[LastIndexOf(name, '.')..] else []
  }

  /** `Path.stem`: the name without its suffix. */
  function Stem(name: string): (stem: string)
    ensures stem + Suffix(name) == name
  {
    if HasSuffix(name) then name[..LastIndexOf(name, '.')] else name
  }

  /** `f"{name}_{counter}{ext}"` on the stem and suffix of `name`. */
  function Renamed(name: string, counter: nat): (r: string)
    ensures |r| > |name|
  {
    Stem(name) + "_" + NatToString(counter) + Suffix(name)
  }

  /** The candidate after `k` renames: the `k`-th rename uses counter `k`,
      applied to the candidate before it. */
  function Candidate(start: string, k: nat): string {
    if k == 0 then start else Renamed(Candidate(start, k - 1), k)
  }

  lemma CandidateStep(start: string, k: nat)
    ensures Candidate(start, k + 1) == Renamed(Candidate(start, k), k + 1)
  {
  }

  /** Every rename makes the candidate longer, so no candidate repeats. */
  lemma CandidatesGrow(start: string, j: nat, k: nat)
    requires j < k
    ensures |Candidate(start, j)| < |Candidate(start, k)|
  {
    var len := (t: nat) => |Candidate(start, t)|;
    forall t: nat | t >= 1 ensures len(t - 1) < len(t) {
      CandidateLonger(start, t);
    }
    ChainGrows(len, j, k);
  }

  /** A quantity that grows at every step grows over any number of steps. */
  lemma {:induction false} ChainGrows(len: nat -> nat, j: nat, k: nat)
    requires forall t: nat | t >= 1 :: len(t - 1) < len(t)
    requires j < k
    ensures len(j) < len(k)
    decreases k
  {
    if j < k - 1 {
      ChainGrows(len, j, k - 1);
    }
  }

  lemma CandidateLonger(start: string, k: nat)
    requires k >= 1
    ensures |Candidate(start, k - 1)| < |Candidate(start, k)|
  {
    assert Candidate(start, k) == Renamed(Candidate(start, k - 1), k);
  }

  /** The collision loop, with `existing` the names already in the result
      folder: it returns the first candidate that is not taken, and the
      number of renames, which is at most the number of names taken. */
  method FreeOutputName(start: string, existing: set<string>) returns (name: string, tries: nat)
    ensures name !in existing
    ensures name == Candidate(start, tries)
    ensures forall k | 0 <= k < tries :: Candidate(start, k) in existing
    ensures tries <= |existing|
  {
    name := start;
    tries := 0;
    ghost var seen: set<string> := {};
    while name in existing
      invariant name == Candidate(start, tries)
      invariant forall k | 0 <= k < tries :: Candidate(start, k) in existing
      invariant seen <= existing && |seen| == tries
      invariant forall s | s in seen :: |s| < |name|
      decreases |existing - seen|
    {
      FewerLeft(existing, seen, name);
      CandidateStep(start, tries);
      var next := Renamed(name, tries + 1);
      TakenPrefix(start, existing, tries);
      seen := seen + {name};
      tries := tries + 1;
      name := next;
    }
    SubsetSize(seen, existing);
  }

  /** A taken name not seen before leaves fewer names to try. */
  lemma FewerLeft(existing: set<string>, seen: set<string>, name: string)
    requires name in existing && seen <= existing
    requires forall s | s in seen :: |s| < |name|
    ensures |existing - (seen + {name})| < |existing - seen|
    ensures |seen + {name}| == |seen| + 1
  {
    assert name !in seen;
    assert existing - seen == (existing - (seen + {name})) + {name};
  }

  /** When the first `tries` candidates and the next one are taken, so are the first `tries + 1`. */
  lemma TakenPrefix(start: string, existing: set<string>, tries: nat)
    requires forall k | 0 <= k < tries :: Candidate(start, k) in existing
    requires Candidate(start, tries) in existing
    ensures forall k | 0 <= k < tries + 1 :: Candidate(start, k) in existing
  {
  }

  lemma {:induction false} SubsetSize(a: set<string>, b: set<string>)
    requires a <= b
    ensures |a| <= |b|
  {
    assert b == a + (b - a);
  }

  /** The digits of the counter hold no `.`. */
  lemma CounterHasNoDot(counter: nat)
    ensures '.' !in NatToString(counter)
  {
    DigitsAreNotDotOrNewline(NatToString(counter));
  }

  /** A name `s + ext` whose stem `s` is non-empty and free of `.` and whose
      extension is `.` followed by at least one character other than `.`
      is renamed to `s_counter` followed by the same extension. */
  lemma {:induction false} RenamedKeepsExtension(s: string, ext: string, counter: nat)
    requires s != [] && '.' !in s
    requires |ext| >= 2 && ext[0] == '.' && '.' !in ext[1..]
    ensures Renamed(s + ext, counter) == s + "_" + NatToString(counter) + ext
  {
    var name := s + ext;
    assert name[|s|] == '.';
    forall j | |s| < j < |name| ensures name[j] != '.' {
      assert name[j] == ext[1..][j - |s| - 1];
    }
    LastDotIs(name, |s|);
    assert name[..|s|] == s && name[|s|..] == ext;
  }

  lemma {:induction false} LastDotIs(name: string, i: nat)
    requires i < |name| && name[i] == '.' && forall j | i < j < |name| :: name[j] != '.'
    ensures LastIndexOf(name, '.') == i
  {
  }

  /** The counters the first `k` renames append: `_1_2..._k`. */
  function CounterTags(k: nat): string {
    if k == 0 then [] else CounterTags(k - 1) + "_" + NatToString(k)
  }

  lemma {:induction false} CounterTagsHaveNoDot(k: nat)
    ensures '.' !in CounterTags(k)
  {
    if k > 0 {
      CounterTagsHaveNoDot(k - 1);
      CounterHasNoDot(k);
    }
  }

  lemma AppendTag(s: string, tags: string, counter: string)
    ensures s + tags + "_" + counter == s + (tags + "_" + counter)
  {
  }

  lemma TaggedStemHasNoDot(s: string, k: nat)
    requires '.' !in s
    ensures '.' !in s + CounterTags(k)
  {
    CounterTagsHaveNoDot(k);
  }

  /** Suffixes accumulate: from `s + ext` the `k`-th candidate is `s`
      followed by `_1_2..._k` and the same extension, as in
      `X.xlsm`, `X_1.xlsm`, `X_1_2.xlsm`. */
  lemma {:induction false} CandidatesAccumulate(s: string, ext: string, k: nat)
    requires s != [] && '.' !in s
    requires |ext| >= 2 && ext[0] == '.' && '.' !in ext[1..]
    ensures Candidate(s + ext, k) == s + CounterTags(k) + ext
    decreases k
  {
    if k > 0 {
      var s' := s + CounterTags(k - 1);
      TaggedStemHasNoDot(s, k - 1);
      RenamedKeepsExtension(s', ext, k);
      CandidatesAccumulate(s, ext, k - 1);
      CandidateStep(s + ext, k - 1);
      AppendTag(s, CounterTags(k - 1), NatToString(k));
    }
  }

  /** For the merged workbook `Final_Template.xlsm`: after two collisions
      the name is `Final_Template_1_2.xlsm`. */
  lemma SecondRenameOfOutput()
    ensures Candidate(OutputFileName, 2) == OutputStem + "_1_2" + OutputExtension
  {
    CandidatesAccumulate(OutputStem, OutputExtension, 2);
    FirstTwoTags();
  }

  lemma FirstTwoTags()
    ensures CounterTags(2) == "_1_2"
  {
    assert NatToString(1) == "1" && NatToString(2) == "2";
    assert CounterTags(1) == "_1";
  }
}
