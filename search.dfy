/**
 * The backtracking search `find_compatible_subset` of utils.py:13-68. It
 * takes a pool of sequences per index set and a subset size per pool. It
 * tries the `combinations` of the first pool in order and recurses into the
 * remaining pools with the chosen sequences added to `previous_list`.
 *
 * The function attribute `timed_out`, the shared `previous_list` and the
 * number of clock readings become the fields of a `SubsetSearch` object.
 * The wall clock becomes the oracle `expired`: `expired(p)` is what the p-th
 * reading of `is_timed_out` answers.
 */
module Search {
  import opened Wrappers
  import opened Itertools
  import opened Distance
  import opened Pools

  /** The state the search threads through its recursive calls. */
  datatype SearchState = SearchState(previous: seq<string>, polls: nat, timedOut: bool)

  /** A result together with the state the call leaves behind. */
  datatype Outcome<T> = Outcome(result: Result<T>, state: SearchState)

  /** The arguments every recursive call passes on unchanged, and the clock. */
  datatype Settings = Settings(minLength: Length, minDistance: int, expired: nat -> bool)

  /** The `min_distance` that the reduction at utils.py:32-33 falls back to, since none is passed. */
  const ReductionDistance: int := 3

  /**
   * One call of `find_compatible_subset` (utils.py:13-68). A pool is None when
   * the object has no `.index_set` (the bare `except` returns None), and
   * `sizes` holds what `subset_size_list` holds.
   */
  function Find(pools: seq<Option<seq<string>>>, sizes: seq<int>, cfg: Settings, st: SearchState)
    : (r: Outcome<Option<seq<string>>>)
    ensures st.previous <= r.state.previous && st.polls <= r.state.polls
    ensures r.result == Ok(None) <==> pools == [] || pools[0].None?
    ensures r.state.timedOut ==> exists p :: st.polls <= p < r.state.polls && cfg.expired(p)
    ensures r.result.Ok? && (r.result.value.None? || r.result.value.value != []) ==> !r.state.timedOut
    decreases |pools|, 2, 0
  {
    var st := st.(timedOut := false);
    if pools == [] || pools[0].None? then Outcome(Ok(None), st)
    else
      match RemoveIncompatible(pools[0].value, st.previous, ReductionDistance, cfg.minLength)
      case Err(e) => Outcome(Err(e), st)
      case Ok(list) => FindReduced(pools, sizes, cfg, list, st)
  }

  /**
   * The rest of the call once the head pool is reduced to `list`
   * (utils.py:34-68): the size check, the check of the whole list, and the
   * loop over its combinations.
   */
  function FindReduced(pools: seq<Option<seq<string>>>, sizes: seq<int>, cfg: Settings, list: seq<string>, st: SearchState)
    : (r: Outcome<Option<seq<string>>>)
    requires pools != [] && !st.timedOut
    ensures st.previous <= r.state.previous && st.polls <= r.state.polls
    ensures r.result.Ok? ==> r.result.value.Some?
    ensures r.state.timedOut ==> exists p :: st.polls <= p < r.state.polls && cfg.expired(p)
    ensures r.result.Ok? && r.result.value.value != [] ==> !r.state.timedOut
    decreases |pools|, 1, 0
  {
    if sizes == [] then Outcome(Err(IndexError), st)
    else if |list| < sizes[0] then Outcome(Ok(Some([])), st)
    else
      match IsSelfCompatible(list, cfg.minDistance, Some(cfg.minLength))
      case Err(e) => Outcome(Err(e), st)
      case Ok(whole) =>
        if sizes[0] < 0 then Outcome(Err(ValueError), st)
        else
          var combos := Combinations(list, sizes[0]);
          Loop(pools, sizes, cfg, combos, Verdicts(combos, whole, cfg), 0, st)
  }

  /**
   * What the check of utils.py:43-44 answers for each combination: nothing
   * is checked when the whole reduced pool is self-compatible. The check is
   * pure, so answering it ahead of the loop changes nothing.
   */
  function Verdicts(combos: seq<seq<string>>, whole: bool, cfg: Settings): (r: seq<Result<bool>>)
    ensures |r| == |combos|
  {
    seq(|combos|, i requires 0 <= i < |combos| =>
      if whole then Ok(true) else IsSelfCompatible(combos[i], cfg.minDistance, Some(cfg.minLength)))
  }

  /**
   * The `for` loop of utils.py:40-66 from the k-th combination on, where
   * `verdicts[k]` is the check's answer for `combos[k]`. A rejected
   * combination reads the clock and ends the call with `[]` once it has
   * expired.
   */
  function Loop(pools: seq<Option<seq<string>>>, sizes: seq<int>, cfg: Settings,
                combos: seq<seq<string>>, verdicts: seq<Result<bool>>, k: nat, st: SearchState)
    : (r: Outcome<Option<seq<string>>>)
    requires pools != [] && sizes != [] && k <= |combos| == |verdicts|
    requires |pools| == 1 ==> !st.timedOut
    ensures st.previous <= r.state.previous && st.polls <= r.state.polls
    ensures r.result.Ok? ==> r.result.value.Some?
    ensures r.state.timedOut ==> st.timedOut || exists p :: st.polls <= p < r.state.polls && cfg.expired(p)
    ensures r.result.Ok? && r.result.value.value != [] ==> !r.state.timedOut
    decreases |pools|, 0, |combos| - k
  {
    if k == |combos| then Outcome(Ok(Some([])), st)
    else
      match verdicts[k]
      case Err(e) => Outcome(Err(e), st)
      case Ok(accepted) =>
        if !accepted then
          var st' := st.(polls := st.polls + 1);
          if cfg.expired(st.polls) then Outcome(Ok(Some([])), st'.(timedOut := true))
          else Loop(pools, sizes, cfg, combos, verdicts, k + 1, st')
        else
          var step := Descend(pools, sizes, cfg, combos[k], st);
          match step.result
          case Err(e) => Outcome(Err(e), step.state)
          case Ok(chosen) =>
            if chosen != [] then Outcome(Ok(Some(chosen)), step.state)
            else Loop(pools, sizes, cfg, combos, verdicts, k + 1, step.state)
  }

  /**
   * An accepted combination `c` (utils.py:54-63). When pools remain, `c` is
   * appended to `previous_list` for good and the search recurses. A deeper
   * success is appended to `c`, and a deeper `[]` (a failure or a timeout)
   * discards `c`. A deeper None keeps `c`.
   */
  function Descend(pools: seq<Option<seq<string>>>, sizes: seq<int>, cfg: Settings, c: seq<string>, st: SearchState)
    : (r: Outcome<seq<string>>)
    requires pools != [] && sizes != []
    requires |pools| == 1 ==> !st.timedOut
    ensures st.previous <= r.state.previous && st.polls <= r.state.polls
    ensures |pools| == 1 ==> r == Outcome(Ok(c), st)
    ensures r.state.timedOut ==> exists p :: st.polls <= p < r.state.polls && cfg.expired(p)
    ensures r.result.Ok? && r.result.value != [] ==> !r.state.timedOut && c <= r.result.value
    decreases |pools|, 0, 0
  {
    if |pools| == 1 then Outcome(Ok(c), st)
    else
      var out := Find(pools[1..], sizes[1..], cfg, st.(previous := st.previous + c));
      match out.result
      case Err(e) => Outcome(Err(e), out.state)
      case Ok(None) => Outcome(Ok(c), out.state)
      case Ok(Some(l)) => Outcome(Ok(if l != [] then c + l else []), out.state)
  }

  /** A rejected combination either ends the loop on an expired clock or passes to the next one. */
  lemma LoopRejects(pools: seq<Option<seq<string>>>, sizes: seq<int>, cfg: Settings,
                    combos: seq<seq<string>>, verdicts: seq<Result<bool>>, k: nat, st: SearchState)
    requires pools != [] && sizes != [] && k < |combos| == |verdicts|
    requires |pools| == 1 ==> !st.timedOut
    requires verdicts[k] == Ok(false)
    ensures cfg.expired(st.polls) ==>
              Loop(pools, sizes, cfg, combos, verdicts, k, st) == Outcome(Ok(Some([])), st.(polls := st.polls + 1, timedOut := true))
    ensures !cfg.expired(st.polls) ==>
              Loop(pools, sizes, cfg, combos, verdicts, k, st) == Loop(pools, sizes, cfg, combos, verdicts, k + 1, st.(polls := st.polls + 1))
  {
  }

  /**
   * Before any combination is tried (utils.py:26-37): a failed reduction, a
   * missing subset size and a reduced pool smaller than the subset size end
   * the call with the committed list and the clock untouched.
   */
  lemma FindEarlyOutcomes(pools: seq<Option<seq<string>>>, sizes: seq<int>, cfg: Settings, st: SearchState)
    requires pools != [] && pools[0].Some?
    ensures var reduced := RemoveIncompatible(pools[0].value, st.previous, ReductionDistance, cfg.minLength);
            var r := Find(pools, sizes, cfg, st);
            var st' := st.(timedOut := false);
            && (reduced.Err? ==> r == Outcome(Err(TypeError), st'))
            && (reduced.Ok? && sizes == [] ==> r == Outcome(Err(IndexError), st'))
            && (reduced.Ok? && sizes != [] && |reduced.value| < sizes[0] ==> r == Outcome(Ok(Some([])), st'))
  {
  }

  /** A non-empty outcome of the loop starts with an accepted combination from k on. */
  lemma {:induction false} LoopSound(pools: seq<Option<seq<string>>>, sizes: seq<int>, cfg: Settings,
                                     combos: seq<seq<string>>, verdicts: seq<Result<bool>>, k: nat, st: SearchState)
    requires pools != [] && sizes != [] && k <= |combos| == |verdicts|
    requires |pools| == 1 ==> !st.timedOut
    ensures var r := Loop(pools, sizes, cfg, combos, verdicts, k, st);
            r.result.Ok? && r.result.value.value != [] ==>
              exists j :: k <= j < |combos| && verdicts[j] == Ok(true) && combos[j] <= r.result.value.value
    decreases |combos| - k
  {
    if k < |combos| && verdicts[k].Ok? {
      if !verdicts[k].value {
        if !cfg.expired(st.polls) {
          LoopSound(pools, sizes, cfg, combos, verdicts, k + 1, st.(polls := st.polls + 1));
        }
      } else {
        var step := Descend(pools, sizes, cfg, combos[k], st);
        if step.result == Ok([]) {
          LoopSound(pools, sizes, cfg, combos, verdicts, k + 1, step.state);
        }
      }
    }
  }

  /**
   * With a single pool left, a non-empty outcome of the loop is the first
   * non-empty combination from k on that the check accepts.
   */
  lemma {:induction false} LoopFirstFit(pools: seq<Option<seq<string>>>, sizes: seq<int>, cfg: Settings,
                                        combos: seq<seq<string>>, verdicts: seq<Result<bool>>, k: nat, st: SearchState)
    requires |pools| == 1 && sizes != [] && k <= |combos| == |verdicts|
    requires !st.timedOut
    ensures var r := Loop(pools, sizes, cfg, combos, verdicts, k, st);
            r.result.Ok? && r.result.value.value != [] ==>
              exists j :: k <= j < |combos| && verdicts[j] == Ok(true) && combos[j] == r.result.value.value
                          && forall i :: k <= i < j ==> verdicts[i] == Ok(false) || combos[i] == []
    decreases |combos| - k
  {
    if k < |combos| && verdicts[k].Ok? {
      if !verdicts[k].value {
        if !cfg.expired(st.polls) {
          LoopFirstFit(pools, sizes, cfg, combos, verdicts, k + 1, st.(polls := st.polls + 1));
        }
      } else if combos[k] == [] {
        LoopFirstFit(pools, sizes, cfg, combos, verdicts, k + 1, st);
      }
    }
  }

  /** A call that answers a non-empty list got past the early outcomes and ran the loop. */
  lemma FindReachesLoop(pools: seq<Option<seq<string>>>, sizes: seq<int>, cfg: Settings, st: SearchState)
    requires var r := Find(pools, sizes, cfg, st);
             r.result.Ok? && r.result.value.Some? && r.result.value.value != []
    ensures pools != [] && pools[0].Some? && sizes != [] && sizes[0] >= 0
    ensures var reduced := RemoveIncompatible(pools[0].value, st.previous, ReductionDistance, cfg.minLength);
            && reduced.Ok?
            && IsSelfCompatible(reduced.value, cfg.minDistance, Some(cfg.minLength)).Ok?
            && var combos := Combinations(reduced.value, sizes[0]);
               var whole := IsSelfCompatible(reduced.value, cfg.minDistance, Some(cfg.minLength)).value;
               Find(pools, sizes, cfg, st) == Loop(pools, sizes, cfg, combos, Verdicts(combos, whole, cfg), 0, st.(timedOut := false))
  {
  }

  /** What a subsequence of a reduced pool inherits from the reduction. */
  lemma ReducedMembers(pool: seq<string>, previous: seq<string>, minLength: Length, head: seq<string>)
    requires RemoveIncompatible(pool, previous, ReductionDistance, minLength).Ok?
    requires SubseqOf(head, RemoveIncompatible(pool, previous, ReductionDistance, minLength).value)
    ensures forall y :: y in head ==> y in pool
    ensures previous != [] ==>
              forall y :: y in head ==> Far(y, previous, ReductionWindow(pool, previous, minLength), ReductionDistance)
  {
    var list := RemoveIncompatible(pool, previous, ReductionDistance, minLength).value;
    if previous != [] {
      RemoveIncompatibleExact(pool, previous, ReductionDistance, minLength);
    }
    forall y | y in head ensures y in list {
      var i :| 0 <= i < |head| && head[i] == y;
      SubseqElement(head, list, i);
    }
  }

  /** A combination whose verdict is an acceptance is self-compatible, directly or as part of a compatible list. */
  lemma AcceptedCombination(list: seq<string>, size: nat, cfg: Settings, j: nat)
    requires IsSelfCompatible(list, cfg.minDistance, Some(cfg.minLength)).Ok?
    requires var combos := Combinations(list, size);
             var whole := IsSelfCompatible(list, cfg.minDistance, Some(cfg.minLength)).value;
             j < |combos| && Verdicts(combos, whole, cfg)[j] == Ok(true)
    ensures var c := Combinations(list, size)[j];
            |c| == size && SubseqOf(c, list) && IsSelfCompatible(c, cfg.minDistance, Some(cfg.minLength)) == Ok(true)
  {
    var c := Combinations(list, size)[j];
    if IsSelfCompatible(list, cfg.minDistance, Some(cfg.minLength)).value {
      IsSelfCompatibleSubseq(c, list, cfg.minDistance, cfg.minLength);
    }
  }

  /** A list that starts with an accepted combination of `list` starts with a self-compatible selection from it. */
  lemma AcceptedHead(list: seq<string>, size: nat, cfg: Settings, j: nat, l: seq<string>)
    requires IsSelfCompatible(list, cfg.minDistance, Some(cfg.minLength)).Ok?
    requires var combos := Combinations(list, size);
             var whole := IsSelfCompatible(list, cfg.minDistance, Some(cfg.minLength)).value;
             j < |combos| && Verdicts(combos, whole, cfg)[j] == Ok(true) && combos[j] <= l
    ensures size <= |l| && SubseqOf(l[..size], list)
    ensures IsSelfCompatible(l[..size], cfg.minDistance, Some(cfg.minLength)) == Ok(true)
  {
    AcceptedCombination(list, size, cfg, j);
    assert l[..size] == Combinations(list, size)[j];
  }

  /**
   * The head of a non-empty result (its first `subset_size` sequences) is a
   * combination of the reduced head pool that is self-compatible over
   * `min_length`. All of it comes from the head pool, and each sequence is far
   * from every committed one over the reduction window.
   */
  lemma FindSound(pools: seq<Option<seq<string>>>, sizes: seq<int>, cfg: Settings, st: SearchState)
    ensures var r := Find(pools, sizes, cfg, st);
            r.result.Ok? && r.result.value.Some? && r.result.value.value != [] ==>
              && pools != [] && pools[0].Some? && sizes != [] && 0 <= sizes[0] <= |r.result.value.value|
              && var reduced := RemoveIncompatible(pools[0].value, st.previous, ReductionDistance, cfg.minLength);
                 var head := r.result.value.value[..sizes[0]];
                 && reduced.Ok? && SubseqOf(head, reduced.value)
                 && IsSelfCompatible(head, cfg.minDistance, Some(cfg.minLength)) == Ok(true)
                 && (forall y :: y in head ==> y in pools[0].value)
                 && (st.previous != [] ==>
                       forall y :: y in head ==>
                         Far(y, st.previous, ReductionWindow(pools[0].value, st.previous, cfg.minLength), ReductionDistance))
  {
    var r := Find(pools, sizes, cfg, st);
    if r.result.Ok? && r.result.value.Some? && r.result.value.value != [] {
      FindReachesLoop(pools, sizes, cfg, st);
      var list := RemoveIncompatible(pools[0].value, st.previous, ReductionDistance, cfg.minLength).value;
      var combos := Combinations(list, sizes[0]);
      var verdicts := Verdicts(combos, IsSelfCompatible(list, cfg.minDistance, Some(cfg.minLength)).value, cfg);
      LoopSound(pools, sizes, cfg, combos, verdicts, 0, st.(timedOut := false));
      var j :| 0 <= j < |combos| && verdicts[j] == Ok(true) && combos[j] <= r.result.value.value;
      AcceptedHead(list, sizes[0], cfg, j, r.result.value.value);
      ReducedMembers(pools[0].value, st.previous, cfg.minLength, r.result.value.value[..sizes[0]]);
    }
  }

  /** Before a non-empty combination, the loop over one pool passed only combinations that the check rejected. */
  lemma EarlierRejected(list: seq<string>, size: nat, cfg: Settings, j: nat)
    requires IsSelfCompatible(list, cfg.minDistance, Some(cfg.minLength)).Ok? && size > 0
    requires var combos := Combinations(list, size);
             var verdicts := Verdicts(combos, IsSelfCompatible(list, cfg.minDistance, Some(cfg.minLength)).value, cfg);
             && j <= |combos|
             && forall i :: 0 <= i < j ==> verdicts[i] == Ok(false) || combos[i] == []
    ensures var combos := Combinations(list, size);
            forall i :: 0 <= i < j ==> IsSelfCompatible(combos[i], cfg.minDistance, Some(cfg.minLength)) == Ok(false)
  {
    var combos := Combinations(list, size);
    forall i | 0 <= i < j ensures IsSelfCompatible(combos[i], cfg.minDistance, Some(cfg.minLength)) == Ok(false) {
      assert |combos[i]| == size;
    }
  }

  /**
   * With a single pool, a non-empty result is the first combination of the
   * reduced pool, in `combinations` order, that is self-compatible: every
   * combination before it failed the check.
   */
  lemma FindFirstFit(pools: seq<Option<seq<string>>>, sizes: seq<int>, cfg: Settings, st: SearchState)
    requires |pools| == 1
    ensures var r := Find(pools, sizes, cfg, st);
            r.result.Ok? && r.result.value.Some? && r.result.value.value != [] ==>
              && pools[0].Some? && sizes != [] && sizes[0] >= 0
              && var reduced := RemoveIncompatible(pools[0].value, st.previous, ReductionDistance, cfg.minLength);
                 && reduced.Ok?
                 && var combos := Combinations(reduced.value, sizes[0]);
                    exists j :: 0 <= j < |combos| && combos[j] == r.result.value.value
                                && IsSelfCompatible(combos[j], cfg.minDistance, Some(cfg.minLength)) == Ok(true)
                                && forall i :: 0 <= i < j ==> IsSelfCompatible(combos[i], cfg.minDistance, Some(cfg.minLength)) == Ok(false)
  {
    var r := Find(pools, sizes, cfg, st);
    if r.result.Ok? && r.result.value.Some? && r.result.value.value != [] {
      FindReachesLoop(pools, sizes, cfg, st);
      var l := r.result.value.value;
      var st1 := st.(timedOut := false);
      var list := RemoveIncompatible(pools[0].value, st.previous, ReductionDistance, cfg.minLength).value;
      var whole := IsSelfCompatible(list, cfg.minDistance, Some(cfg.minLength)).value;
      var combos := Combinations(list, sizes[0]);
      var verdicts := Verdicts(combos, whole, cfg);
      LoopFirstFit(pools, sizes, cfg, combos, verdicts, 0, st1);
      var j :| 0 <= j < |combos| && verdicts[j] == Ok(true) && combos[j] == l
               && forall i :: 0 <= i < j ==> verdicts[i] == Ok(false) || combos[i] == [];
      assert |l| == sizes[0];
      EarlierRejected(list, sizes[0], cfg, j);
      AcceptedCombination(list, sizes[0], cfg, j);
    }
  }

  /**
   * One pass of the loop over `combos[i]` from state `st` that does not end
   * the call: a rejection on a clock that has not expired, or an acceptance
   * whose recursion answered `[]`. None when the call ends at `combos[i]`.
   */
  function Step(pools: seq<Option<seq<string>>>, sizes: seq<int>, cfg: Settings,
                combos: seq<seq<string>>, verdicts: seq<Result<bool>>, i: nat, st: SearchState)
    : (r: Option<SearchState>)
    requires pools != [] && sizes != [] && i < |combos| == |verdicts|
    requires |pools| == 1 ==> !st.timedOut
    ensures r.Some? ==> verdicts[i].Ok?
    ensures r.Some? && verdicts[i] == Ok(false) ==> !cfg.expired(st.polls) && r.value == st.(polls := st.polls + 1)
    ensures r.Some? && verdicts[i] == Ok(true) ==> Descend(pools, sizes, cfg, combos[i], st) == Outcome(Ok([]), r.value)
    ensures r.Some? && |pools| == 1 ==> !r.value.timedOut
  {
    match verdicts[i]
    case Err(_) => None
    case Ok(accepted) =>
      if !accepted then
        if cfg.expired(st.polls) then None else Some(st.(polls := st.polls + 1))
      else
        var d := Descend(pools, sizes, cfg, combos[i], st);
        if d.result == Ok([]) then Some(d.state) else None
  }

  /**
   * The state in which the loop, started at `combos[k]` in state `st`, reaches
   * `combos[j]`; None when the call ends before it.
   */
  function Passed(pools: seq<Option<seq<string>>>, sizes: seq<int>, cfg: Settings,
                  combos: seq<seq<string>>, verdicts: seq<Result<bool>>, k: nat, st: SearchState, j: nat)
    : (r: Option<SearchState>)
    requires pools != [] && sizes != [] && k <= j <= |combos| == |verdicts|
    requires |pools| == 1 ==> !st.timedOut
    ensures r.Some? && |pools| == 1 ==> !r.value.timedOut
    decreases j
  {
    if j == k then Some(st)
    else
      match Passed(pools, sizes, cfg, combos, verdicts, k, st, j - 1)
      case None => None
      case Some(s) => Step(pools, sizes, cfg, combos, verdicts, j - 1, s)
  }

  /** Reaching `combos[j]` from k is one step from k and then reaching it from k + 1. */
  lemma {:induction false} PassedFront(pools: seq<Option<seq<string>>>, sizes: seq<int>, cfg: Settings,
                                       combos: seq<seq<string>>, verdicts: seq<Result<bool>>, k: nat, st: SearchState, j: nat)
    requires pools != [] && sizes != [] && k < j <= |combos| == |verdicts|
    requires |pools| == 1 ==> !st.timedOut
    ensures Step(pools, sizes, cfg, combos, verdicts, k, st).None? ==>
              Passed(pools, sizes, cfg, combos, verdicts, k, st, j).None?
    ensures Step(pools, sizes, cfg, combos, verdicts, k, st).Some? ==>
              Passed(pools, sizes, cfg, combos, verdicts, k, st, j)
              == Passed(pools, sizes, cfg, combos, verdicts, k + 1, Step(pools, sizes, cfg, combos, verdicts, k, st).value, j)
    decreases j
  {
    if j > k + 1 {
      PassedFront(pools, sizes, cfg, combos, verdicts, k, st, j - 1);
    }
  }

  /** Reaching `combos[j]` means every earlier combination from k on was passed without ending the call. */
  lemma {:induction false} PassedPrefix(pools: seq<Option<seq<string>>>, sizes: seq<int>, cfg: Settings,
                                        combos: seq<seq<string>>, verdicts: seq<Result<bool>>, k: nat, st: SearchState, j: nat)
    requires pools != [] && sizes != [] && k <= j <= |combos| == |verdicts|
    requires |pools| == 1 ==> !st.timedOut
    requires Passed(pools, sizes, cfg, combos, verdicts, k, st, j).Some?
    ensures forall i :: k <= i < j ==>
              && Passed(pools, sizes, cfg, combos, verdicts, k, st, i).Some?
              && Step(pools, sizes, cfg, combos, verdicts, i, Passed(pools, sizes, cfg, combos, verdicts, k, st, i).value).Some?
    decreases j
  {
    if j > k {
      PassedPrefix(pools, sizes, cfg, combos, verdicts, k, st, j - 1);
    }
  }

  /**
   * A non-empty outcome of the loop from k is what `Descend` answers for the
   * first combination from k at which the call ends: an accepted one, reached
   * in the state that passing the earlier ones left behind.
   */
  lemma {:induction false} LoopFirstSuccess(pools: seq<Option<seq<string>>>, sizes: seq<int>, cfg: Settings,
                                            combos: seq<seq<string>>, verdicts: seq<Result<bool>>, k: nat, st: SearchState)
    requires pools != [] && sizes != [] && k <= |combos| == |verdicts|
    requires |pools| == 1 ==> !st.timedOut
    ensures var r := Loop(pools, sizes, cfg, combos, verdicts, k, st);
            r.result.Ok? && r.result.value.value != [] ==>
              exists j :: k <= j < |combos| && Passed(pools, sizes, cfg, combos, verdicts, k, st, j).Some?
                          && verdicts[j] == Ok(true)
                          && Descend(pools, sizes, cfg, combos[j], Passed(pools, sizes, cfg, combos, verdicts, k, st, j).value)
                             == Outcome(Ok(r.result.value.value), r.state)
    decreases |combos| - k
  {
    var r := Loop(pools, sizes, cfg, combos, verdicts, k, st);
    if k < |combos| && r.result.Ok? && r.result.value.value != [] {
      var next := Step(pools, sizes, cfg, combos, verdicts, k, st);
      if next.Some? {
        assert r == Loop(pools, sizes, cfg, combos, verdicts, k + 1, next.value);
        LoopFirstSuccess(pools, sizes, cfg, combos, verdicts, k + 1, next.value);
        var j :| k + 1 <= j < |combos| && Passed(pools, sizes, cfg, combos, verdicts, k + 1, next.value, j).Some?
                 && verdicts[j] == Ok(true)
                 && Descend(pools, sizes, cfg, combos[j], Passed(pools, sizes, cfg, combos, verdicts, k + 1, next.value, j).value)
                    == Outcome(Ok(r.result.value.value), r.state);
        PassedFront(pools, sizes, cfg, combos, verdicts, k, st, j);
      } else {
        assert Passed(pools, sizes, cfg, combos, verdicts, k, st, k) == Some(st);
      }
    }
  }

  /**
   * A non-empty answer of `Descend` for `c`: with one pool left it is `c`;
   * otherwise the search over the remaining pools, with `c` committed, either
   * found no pool (None) and the answer is `c`, or answered a non-empty `tail`
   * and the answer is `c + tail`.
   */
  lemma DescendAnswer(pools: seq<Option<seq<string>>>, sizes: seq<int>, cfg: Settings, c: seq<string>, st: SearchState)
    requires pools != [] && sizes != []
    requires |pools| == 1 ==> !st.timedOut
    ensures var d := Descend(pools, sizes, cfg, c, st);
            d.result.Ok? && d.result.value != [] ==>
              if |pools| == 1 then d.result.value == c
              else
                var deeper := Find(pools[1..], sizes[1..], cfg, st.(previous := st.previous + c));
                && deeper.state == d.state && deeper.result.Ok?
                && (deeper.result.value.None? ==> d.result.value == c)
                && (deeper.result.value.Some? ==>
                      deeper.result.value.value != [] && d.result.value == c + deeper.result.value.value)
  {
  }

  /**
   * A combination `c` that the loop passed in state `s`: it failed the check
   * on a clock that had not yet expired, or it is self-compatible and the
   * recursion with it committed answered `[]`.
   */
  predicate PassedOver(pools: seq<Option<seq<string>>>, sizes: seq<int>, cfg: Settings, c: seq<string>, s: SearchState)
    requires pools != [] && sizes != [] && (|pools| == 1 ==> !s.timedOut)
  {
    || (IsSelfCompatible(c, cfg.minDistance, Some(cfg.minLength)) == Ok(false) && !cfg.expired(s.polls))
    || (IsSelfCompatible(c, cfg.minDistance, Some(cfg.minLength)) == Ok(true)
        && Descend(pools, sizes, cfg, c, s).result == Ok([]))
  }

  /**
   * The loop over `combos`, started in state `st0`, ends the call at
   * `combos[j]` with outcome `out`: it reached `combos[j]`, which is
   * self-compatible, and `Descend` from there answers `out`. Every earlier
   * combination was passed over.
   */
  predicate EndsAt(pools: seq<Option<seq<string>>>, sizes: seq<int>, cfg: Settings,
                   combos: seq<seq<string>>, verdicts: seq<Result<bool>>, st0: SearchState, j: nat, out: Outcome<seq<string>>)
    requires pools != [] && sizes != [] && |combos| == |verdicts| && (|pools| == 1 ==> !st0.timedOut)
  {
    && j < |combos| && Passed(pools, sizes, cfg, combos, verdicts, 0, st0, j).Some?
    && IsSelfCompatible(combos[j], cfg.minDistance, Some(cfg.minLength)) == Ok(true)
    && Descend(pools, sizes, cfg, combos[j], Passed(pools, sizes, cfg, combos, verdicts, 0, st0, j).value) == out
    && forall i :: 0 <= i < j ==>
         && Passed(pools, sizes, cfg, combos, verdicts, 0, st0, i).Some?
         && PassedOver(pools, sizes, cfg, combos[i], Passed(pools, sizes, cfg, combos, verdicts, 0, st0, i).value)
  }

  /** Each verdict the loop reads is what the check answers for its combination. */
  predicate VerdictsSound(combos: seq<seq<string>>, verdicts: seq<Result<bool>>, cfg: Settings)
    requires |combos| == |verdicts|
  {
    forall i :: 0 <= i < |combos| && verdicts[i].Ok? ==>
      IsSelfCompatible(combos[i], cfg.minDistance, Some(cfg.minLength)) == verdicts[i]
  }

  /** The verdicts over the combinations of a reduced pool are sound. */
  lemma ReducedVerdictsSound(list: seq<string>, size: nat, cfg: Settings)
    requires IsSelfCompatible(list, cfg.minDistance, Some(cfg.minLength)).Ok?
    ensures var combos := Combinations(list, size);
            VerdictsSound(combos, Verdicts(combos, IsSelfCompatible(list, cfg.minDistance, Some(cfg.minLength)).value, cfg), cfg)
  {
    var combos := Combinations(list, size);
    var verdicts := Verdicts(combos, IsSelfCompatible(list, cfg.minDistance, Some(cfg.minLength)).value, cfg);
    forall i | 0 <= i < |combos| && verdicts[i].Ok?
      ensures IsSelfCompatible(combos[i], cfg.minDistance, Some(cfg.minLength)) == verdicts[i]
    {
      if verdicts[i] == Ok(true) {
        AcceptedCombination(list, size, cfg, i);
      }
    }
  }

  /** With sound verdicts, a non-empty outcome of the loop from the first combination ends the call at some combination. */
  lemma LoopEnds(pools: seq<Option<seq<string>>>, sizes: seq<int>, cfg: Settings,
                 combos: seq<seq<string>>, verdicts: seq<Result<bool>>, st0: SearchState)
    requires pools != [] && sizes != [] && |combos| == |verdicts| && (|pools| == 1 ==> !st0.timedOut)
    requires VerdictsSound(combos, verdicts, cfg)
    ensures var r := Loop(pools, sizes, cfg, combos, verdicts, 0, st0);
            r.result.Ok? && r.result.value.value != [] ==>
              exists j :: EndsAt(pools, sizes, cfg, combos, verdicts, st0, j, Outcome(Ok(r.result.value.value), r.state))
  {
    var r := Loop(pools, sizes, cfg, combos, verdicts, 0, st0);
    if r.result.Ok? && r.result.value.value != [] {
      LoopFirstSuccess(pools, sizes, cfg, combos, verdicts, 0, st0);
      var j :| 0 <= j < |combos| && Passed(pools, sizes, cfg, combos, verdicts, 0, st0, j).Some?
               && verdicts[j] == Ok(true)
               && Descend(pools, sizes, cfg, combos[j], Passed(pools, sizes, cfg, combos, verdicts, 0, st0, j).value)
                  == Outcome(Ok(r.result.value.value), r.state);
      PassedPrefix(pools, sizes, cfg, combos, verdicts, 0, st0, j);
      assert EndsAt(pools, sizes, cfg, combos, verdicts, st0, j, Outcome(Ok(r.result.value.value), r.state));
    }
  }

  /**
   * For any number of pools, a non-empty result is `combos[j] + tail` (see
   * `DescendAnswer`) for the first combination `combos[j]` of the reduced
   * head pool, in `combinations` order, at which the call ends.
   */
  lemma FindFirstSuccess(pools: seq<Option<seq<string>>>, sizes: seq<int>, cfg: Settings, st: SearchState)
    ensures var r := Find(pools, sizes, cfg, st);
            r.result.Ok? && r.result.value.Some? && r.result.value.value != [] ==>
              && pools != [] && pools[0].Some? && sizes != [] && sizes[0] >= 0
              && var reduced := RemoveIncompatible(pools[0].value, st.previous, ReductionDistance, cfg.minLength);
                 && reduced.Ok? && IsSelfCompatible(reduced.value, cfg.minDistance, Some(cfg.minLength)).Ok?
                 && var combos := Combinations(reduced.value, sizes[0]);
                    var verdicts := Verdicts(combos, IsSelfCompatible(reduced.value, cfg.minDistance, Some(cfg.minLength)).value, cfg);
                    exists j :: EndsAt(pools, sizes, cfg, combos, verdicts, st.(timedOut := false), j,
                                       Outcome(Ok(r.result.value.value), r.state))
  {
    var r := Find(pools, sizes, cfg, st);
    if r.result.Ok? && r.result.value.Some? && r.result.value.value != [] {
      FindReachesLoop(pools, sizes, cfg, st);
      var list := RemoveIncompatible(pools[0].value, st.previous, ReductionDistance, cfg.minLength).value;
      var combos := Combinations(list, sizes[0]);
      ReducedVerdictsSound(list, sizes[0], cfg);
      LoopEnds(pools, sizes, cfg, combos, Verdicts(combos, IsSelfCompatible(list, cfg.minDistance, Some(cfg.minLength)).value, cfg),
               st.(timedOut := false));
    }
  }

  /**
   * An untimed `[]` from the loop at k means the loop passed every
   * combination from k on and ended in the state the last one left behind:
   * it did not give up early.
   */
  lemma {:induction false} LoopExhausted(pools: seq<Option<seq<string>>>, sizes: seq<int>, cfg: Settings,
                                         combos: seq<seq<string>>, verdicts: seq<Result<bool>>, k: nat, st: SearchState)
    requires pools != [] && sizes != [] && k <= |combos| == |verdicts|
    requires |pools| == 1 ==> !st.timedOut
    ensures var r := Loop(pools, sizes, cfg, combos, verdicts, k, st);
            r.result == Ok(Some([])) && !r.state.timedOut ==>
              Passed(pools, sizes, cfg, combos, verdicts, k, st, |combos|) == Some(r.state)
    decreases |combos| - k
  {
    var r := Loop(pools, sizes, cfg, combos, verdicts, k, st);
    if k < |combos| && r.result == Ok(Some([])) && !r.state.timedOut {
      var next := Step(pools, sizes, cfg, combos, verdicts, k, st);
      if next.Some? {
        assert r == Loop(pools, sizes, cfg, combos, verdicts, k + 1, next.value);
        LoopExhausted(pools, sizes, cfg, combos, verdicts, k + 1, next.value);
        PassedFront(pools, sizes, cfg, combos, verdicts, k, st, |combos|);
      } else {
        assert false;
      }
    }
  }

  /**
   * The loop over `combos` from the first combination in state `st0`
   * passed over every combination and ended in state `out`.
   */
  predicate Exhausted(pools: seq<Option<seq<string>>>, sizes: seq<int>, cfg: Settings,
                      combos: seq<seq<string>>, verdicts: seq<Result<bool>>, st0: SearchState, out: SearchState)
    requires pools != [] && sizes != [] && |combos| == |verdicts| && (|pools| == 1 ==> !st0.timedOut)
  {
    && Passed(pools, sizes, cfg, combos, verdicts, 0, st0, |combos|) == Some(out)
    && forall i :: 0 <= i < |combos| ==>
         && Passed(pools, sizes, cfg, combos, verdicts, 0, st0, i).Some?
         && PassedOver(pools, sizes, cfg, combos[i], Passed(pools, sizes, cfg, combos, verdicts, 0, st0, i).value)
  }

  /** With sound verdicts, an untimed `[]` from the loop means it passed over every combination. */
  lemma LoopExhaustedAll(pools: seq<Option<seq<string>>>, sizes: seq<int>, cfg: Settings,
                         combos: seq<seq<string>>, verdicts: seq<Result<bool>>, st0: SearchState)
    requires pools != [] && sizes != [] && |combos| == |verdicts| && (|pools| == 1 ==> !st0.timedOut)
    requires VerdictsSound(combos, verdicts, cfg)
    ensures var r := Loop(pools, sizes, cfg, combos, verdicts, 0, st0);
            r.result == Ok(Some([])) && !r.state.timedOut ==> Exhausted(pools, sizes, cfg, combos, verdicts, st0, r.state)
  {
    var r := Loop(pools, sizes, cfg, combos, verdicts, 0, st0);
    if r.result == Ok(Some([])) && !r.state.timedOut {
      LoopExhausted(pools, sizes, cfg, combos, verdicts, 0, st0);
      PassedPrefix(pools, sizes, cfg, combos, verdicts, 0, st0, |combos|);
      assert Exhausted(pools, sizes, cfg, combos, verdicts, st0, r.state);
    }
  }

  /**
   * An untimed `[]` is an exhaustive failure: either the reduced head pool
   * is smaller than the subset size and nothing was tried, or every
   * combination of it, in `combinations` order, was passed over.
   */
  lemma FindExhausted(pools: seq<Option<seq<string>>>, sizes: seq<int>, cfg: Settings, st: SearchState)
    ensures var r := Find(pools, sizes, cfg, st);
            r.result == Ok(Some([])) && !r.state.timedOut ==>
              && pools != [] && pools[0].Some? && sizes != []
              && var reduced := RemoveIncompatible(pools[0].value, st.previous, ReductionDistance, cfg.minLength);
                 && reduced.Ok?
                 && (|reduced.value| < sizes[0] ==> r.state == st.(timedOut := false))
                 && (|reduced.value| >= sizes[0] ==>
                       && sizes[0] >= 0 && IsSelfCompatible(reduced.value, cfg.minDistance, Some(cfg.minLength)).Ok?
                       && var combos := Combinations(reduced.value, sizes[0]);
                          var verdicts := Verdicts(combos, IsSelfCompatible(reduced.value, cfg.minDistance, Some(cfg.minLength)).value, cfg);
                          Exhausted(pools, sizes, cfg, combos, verdicts, st.(timedOut := false), r.state))
  {
    var r := Find(pools, sizes, cfg, st);
    if r.result == Ok(Some([])) && !r.state.timedOut {
      var st' := st.(timedOut := false);
      var reduced := RemoveIncompatible(pools[0].value, st.previous, ReductionDistance, cfg.minLength);
      assert reduced.Ok? && r == FindReduced(pools, sizes, cfg, reduced.value, st');
      var list := reduced.value;
      if |list| >= sizes[0] {
        var whole := IsSelfCompatible(list, cfg.minDistance, Some(cfg.minLength));
        assert whole.Ok? && sizes[0] >= 0;
        var combos := Combinations(list, sizes[0]);
        assert r == Loop(pools, sizes, cfg, combos, Verdicts(combos, whole.value, cfg), 0, st');
        ReducedVerdictsSound(list, sizes[0], cfg);
        LoopExhaustedAll(pools, sizes, cfg, combos, Verdicts(combos, IsSelfCompatible(list, cfg.minDistance, Some(cfg.minLength)).value, cfg),
                         st.(timedOut := false));
      }
    }
  }

  /**
   * The search object: `timed_out` (the function attribute), `previous_list`
   * (a mutable default shared by every call that does not pass one), and the
   * number of clock readings so far.
   */
  class SubsetSearch {
    var previous: seq<string>
    var polls: nat
    var timedOut: bool
    const expired: nat -> bool

    /** A fresh search: the default `previous_list=[]`, no clock reading yet. */
    constructor (expired: nat -> bool)
      ensures State() == SearchState([], 0, false) && this.expired == expired
    {
      previous := [];
      polls := 0;
      timedOut := false;
      this.expired := expired;
    }

    function State(): SearchState
      reads this
    {
      SearchState(previous, polls, timedOut)
    }

    /**
     * `find_compatible_subset(pools, sizes, min_length, min_distance)`: the
     * result and the new state are those of `Find`.
     */
    method FindCompatibleSubset(pools: seq<Option<seq<string>>>, sizes: seq<int>, minLength: Length, minDistance: int)
      returns (r: Result<Option<seq<string>>>)
      modifies this
      ensures Outcome(r, State()) == Find(pools, sizes, Settings(minLength, minDistance, expired), old(State()))
      decreases |pools|, 2, 0
    {
      timedOut := false;
      if pools == [] || pools[0].None? {
        return Ok(None);
      }
      var reduced := RemoveIncompatibleIndexes(pools[0].value, previous, ReductionDistance, minLength);
      if reduced.Err? {
        return Err(reduced.error);
      }
      r := SearchReduced(pools, sizes, minLength, minDistance, reduced.value);
    }

    /** utils.py:34-68 on the reduced head pool `list`, as `FindReduced` states it. */
    method SearchReduced(pools: seq<Option<seq<string>>>, sizes: seq<int>, minLength: Length, minDistance: int, list: seq<string>)
      returns (r: Result<Option<seq<string>>>)
      requires pools != [] && !timedOut
      modifies this
      ensures Outcome(r, State()) == FindReduced(pools, sizes, Settings(minLength, minDistance, expired), list, old(State()))
      decreases |pools|, 1, 0
    {
      if sizes == [] {
        return Err(IndexError);
      }
      var size := sizes[0];
      if |list| < size {
        return Ok(Some([]));
      }
      var whole := IsSelfCompatible(list, minDistance, Some(minLength));
      if whole.Err? {
        return Err(whole.error);
      }
      if size < 0 {
        return Err(ValueError);
      }
      var combos := Combinations(list, size);
      r := TryCombinations(pools, sizes, minLength, minDistance, whole.value, combos);
    }

    /** The `for` loop of utils.py:40-66, as `Loop` states it from the first combination. */
    method TryCombinations(pools: seq<Option<seq<string>>>, sizes: seq<int>, minLength: Length, minDistance: int,
                           whole: bool, combos: seq<seq<string>>)
      returns (r: Result<Option<seq<string>>>)
      requires pools != [] && sizes != []
      requires |pools| == 1 ==> !timedOut
      modifies this
      ensures var cfg := Settings(minLength, minDistance, expired);
              Outcome(r, State()) == Loop(pools, sizes, cfg, combos, Verdicts(combos, whole, cfg), 0, old(State()))
      decreases |pools|, 0, |combos| + 2
    {
      ghost var cfg := Settings(minLength, minDistance, expired);
      ghost var verdicts := Verdicts(combos, whole, cfg);
      ghost var target := Loop(pools, sizes, cfg, combos, verdicts, 0, State());
      var k := 0;
      while k < |combos|
        invariant 0 <= k <= |combos|
        invariant |pools| == 1 ==> !timedOut
        invariant Loop(pools, sizes, cfg, combos, verdicts, k, State()) == target
        decreases |combos| - k
      {
        var done, result := TryCombination(pools, sizes, minLength, minDistance, whole, combos, k);
        if done {
          return result;
        }
        k := k + 1;
      }
      return Ok(Some([]));
    }

    /**
     * One pass of the loop body (utils.py:42-66) on the k-th combination:
     * either the call ends here with `r`, or the loop goes on to the next
     * combination from the new state.
     */
    method TryCombination(pools: seq<Option<seq<string>>>, sizes: seq<int>, minLength: Length, minDistance: int,
                          whole: bool, combos: seq<seq<string>>, k: nat)
      returns (done: bool, r: Result<Option<seq<string>>>)
      requires pools != [] && sizes != [] && k < |combos|
      requires |pools| == 1 ==> !timedOut
      modifies this
      ensures var cfg := Settings(minLength, minDistance, expired);
              var verdicts := Verdicts(combos, whole, cfg);
              && (done ==> Outcome(r, State()) == Loop(pools, sizes, cfg, combos, verdicts, k, old(State())))
              && (!done ==> (|pools| == 1 ==> !timedOut)
                            && Loop(pools, sizes, cfg, combos, verdicts, k + 1, State())
                               == Loop(pools, sizes, cfg, combos, verdicts, k, old(State())))
      decreases |pools|, 0, |combos| - k + 1
    {
      var c := combos[k];
      if !whole {
        var check := IsSelfCompatible(c, minDistance, Some(minLength));
        if check.Err? {
          return true, Err(check.error);
        }
        if !check.value {
          done, r := Reject(pools, sizes, minLength, minDistance, whole, combos, k);
          return;
        }
      }
      done, r := Accept(pools, sizes, minLength, minDistance, whole, combos, k);
    }

    /** A rejected combination (utils.py:44-48): one reading of the clock, then a timeout or the next combination. */
    method Reject(pools: seq<Option<seq<string>>>, sizes: seq<int>, minLength: Length, minDistance: int,
                  whole: bool, combos: seq<seq<string>>, k: nat)
      returns (done: bool, r: Result<Option<seq<string>>>)
      requires pools != [] && sizes != [] && k < |combos|
      requires |pools| == 1 ==> !timedOut
      requires Verdicts(combos, whole, Settings(minLength, minDistance, expired))[k] == Ok(false)
      modifies this
      ensures var cfg := Settings(minLength, minDistance, expired);
              var verdicts := Verdicts(combos, whole, cfg);
              && (done ==> Outcome(r, State()) == Loop(pools, sizes, cfg, combos, verdicts, k, old(State())))
              && (!done ==> (|pools| == 1 ==> !timedOut)
                            && Loop(pools, sizes, cfg, combos, verdicts, k + 1, State())
                               == Loop(pools, sizes, cfg, combos, verdicts, k, old(State())))
    {
      LoopRejects(pools, sizes, Settings(minLength, minDistance, expired), combos, Verdicts(combos, whole, Settings(minLength, minDistance, expired)), k, State());
      var expiredNow := expired(polls);
      polls := polls + 1;
      if expiredNow {
        timedOut := true;
        assert State() == old(State()).(polls := old(State()).polls + 1, timedOut := true);
        return true, Ok(Some([]));
      }
      assert State() == old(State()).(polls := old(State()).polls + 1);
      return false, Ok(None);
    }

    /** An accepted combination (utils.py:49-66): the recursion, then a result or the next combination. */
    method Accept(pools: seq<Option<seq<string>>>, sizes: seq<int>, minLength: Length, minDistance: int,
                  whole: bool, combos: seq<seq<string>>, k: nat)
      returns (done: bool, r: Result<Option<seq<string>>>)
      requires pools != [] && sizes != [] && k < |combos|
      requires |pools| == 1 ==> !timedOut
      requires Verdicts(combos, whole, Settings(minLength, minDistance, expired))[k] == Ok(true)
      modifies this
      ensures var cfg := Settings(minLength, minDistance, expired);
              var verdicts := Verdicts(combos, whole, cfg);
              && (done ==> Outcome(r, State()) == Loop(pools, sizes, cfg, combos, verdicts, k, old(State())))
              && (!done ==> (|pools| == 1 ==> !timedOut)
                            && Loop(pools, sizes, cfg, combos, verdicts, k + 1, State())
                               == Loop(pools, sizes, cfg, combos, verdicts, k, old(State())))
      decreases |pools|, 0, 1
    {
      var step := DescendInto(pools, sizes, minLength, minDistance, combos[k]);
      if step.Err? {
        return true, Err(step.error);
      }
      if step.value != [] {
        return true, Ok(Some(step.value));
      }
      return false, Ok(None);
    }

    /** The accepted combination `c`: the recursion of utils.py:54-63, as `Descend` states it. */
    method DescendInto(pools: seq<Option<seq<string>>>, sizes: seq<int>, minLength: Length, minDistance: int, c: seq<string>)
      returns (r: Result<seq<string>>)
      requires pools != [] && sizes != []
      requires |pools| == 1 ==> !timedOut
      modifies this
      ensures Outcome(r, State()) == Descend(pools, sizes, Settings(minLength, minDistance, expired), c, old(State()))
      decreases |pools|, 0, 0
    {
      if |pools| == 1 {
        return Ok(c);
      }
      previous := previous + c;
      var deeper := FindCompatibleSubset(pools[1..], sizes[1..], minLength, minDistance);
      match deeper
      case Err(e) => r := Err(e);
      case Ok(None) => r := Ok(c);
      case Ok(Some(l)) => r := Ok(if l != [] then c + l else []);
    }
  }
}
