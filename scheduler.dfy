/** `LRScheduler`: a precomputed schedule (linear warmup followed by cosine
    decay) read one entry per step. The schedule's values are abstract; only
    its length and the stepping are modelled. */
module Scheduler {

  function Max0(i: int): nat {
    if i > 0 then i else 0
  }

  /** The length of `concatenate((linspace(.., warmup_iter), cosine over
      arange(decay_iter)))`: `arange` of a negative count is empty. */
  function ScheduleLength(iterPerEpoch: nat, warmupEpochs: nat, numEpochs: int): (n: nat)
    ensures warmupEpochs <= numEpochs ==> n == iterPerEpoch * numEpochs
    ensures numEpochs < warmupEpochs ==> n == iterPerEpoch * warmupEpochs
  {
    var decay := iterPerEpoch * (numEpochs - warmupEpochs);
    assert warmupEpochs <= numEpochs ==> iterPerEpoch * warmupEpochs + decay == iterPerEpoch * numEpochs;
    assert numEpochs < warmupEpochs ==> decay <= 0;
    iterPerEpoch * warmupEpochs + Max0(decay)
  }

  /** What `step` does: return the rate it set, raise IndexError on reading
      past the schedule, or raise UnboundLocalError because the optimizer has
      no param group (so `lr` was never assigned). */
  datatype StepResult = Stepped(lr: real) | IndexError | UnboundLocal

  class LRScheduler {
    /** `lr_schedule`. */
    const schedule: seq<real>
    /** The 'lr' entry of each of the optimizer's param groups, in order. */
    const paramGroups: array<real>
    var iter: nat
    var currentLr: real

    /** `__init__`: the warmup and decay parts hold
        `iter_per_epoch * warmup_epochs` and
        `max(0, iter_per_epoch * (num_epochs - warmup_epochs))` values. */
    constructor (paramGroups: array<real>, warmupEpochs: nat, numEpochs: int, iterPerEpoch: nat,
                 warmup: seq<real>, decay: seq<real>)
      requires |warmup| == iterPerEpoch * warmupEpochs
      requires |decay| == Max0(iterPerEpoch * (numEpochs - warmupEpochs))
      ensures schedule == warmup + decay
      ensures |schedule| == ScheduleLength(iterPerEpoch, warmupEpochs, numEpochs)
      ensures this.paramGroups == paramGroups
      ensures Valid() && iter == 0 && GetLr() == 0.0
    {
      schedule := warmup + decay;
      this.paramGroups := paramGroups;
      iter := 0;
      currentLr := 0.0;
    }

    /** The current rate is 0 or an entry of the schedule. */
    predicate Valid()
      reads this
    {
      currentLr == 0.0 || currentLr in schedule
    }

    /** `get_lr`: the rate of the last successful step, 0 before the first:
        always 0 or a scheduled rate. */
    function GetLr(): (lr: real)
      requires Valid()
      reads this
      ensures lr == 0.0 || lr in schedule
    {
      currentLr
    }

    /** `step`: write `schedule[iter]` into every param group, then advance
        `iter` by one and make that rate current. */
    method Step() returns (r: StepResult)
      requires Valid()
      modifies this, paramGroups
      ensures Valid()
      ensures paramGroups.Length > 0 && old(iter) < |schedule| ==>
        && r == Stepped(schedule[old(iter)])
        && iter == old(iter) + 1
        && GetLr() == schedule[old(iter)]
        && forall g :: 0 <= g < paramGroups.Length ==> paramGroups[g] == schedule[old(iter)]
      ensures paramGroups.Length > 0 && old(iter) >= |schedule| ==>
        && r == IndexError
        && iter == old(iter) && currentLr == old(currentLr)
        && paramGroups[..] == old(paramGroups[..])
      ensures paramGroups.Length == 0 ==>
        r == UnboundLocal && iter == old(iter) + 1 && currentLr == old(currentLr)
    {
      var lrBound := false;
      var lr := 0.0;
      for g := 0 to paramGroups.Length
        invariant iter == old(iter) && currentLr == old(currentLr)
        invariant lrBound <==> g > 0
        invariant g > 0 ==> iter < |schedule| && lr == schedule[iter]
        invariant forall h :: 0 <= h < g ==> paramGroups[h] == lr
        invariant forall h :: g <= h < paramGroups.Length ==> paramGroups[h] == old(paramGroups[h])
      {
        if iter >= |schedule| {
          return IndexError;
        }
        lr := schedule[iter];
        paramGroups[g] := lr;
        lrBound := true;
      }
      iter := iter + 1;
      if !lrBound {
        return UnboundLocal;
      }
      currentLr := lr;
      r := Stepped(lr);
    }
  }
}
