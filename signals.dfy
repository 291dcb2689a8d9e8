/** The signal bookkeeping of `detail` (linux_term.hpp): which signals get
    the fatal handler, and where each one's old disposition is saved. */
module Signals {
  /** Linux signal numbers. */
  const SigInt: int := 2
  const SigIll: int := 4
  const SigAbrt: int := 6
  const SigFpe: int := 8
  const SigSegv: int := 11
  const SigTerm: int := 15
  const SigCont: int := 18
  const SigTstp: int := 20

  /** `HANDLED_SIGNALS`, in the order their slots are assigned. */
  const HandledSignals: seq<int> := [SigInt, SigSegv, SigTerm, SigIll, SigFpe, SigAbrt]

  /** The saved-action arrays hold one slot per handled signal and two more
      for SIGCONT and SIGTSTP, which take the last two. */
  const MaxSignal: nat := |HandledSignals| + 2
  const IndexHandlerSigtstp: nat := MaxSignal - 1
  const IndexHandlerSigcont: nat := IndexHandlerSigtstp - 1

  /** `size_t(-1)` on a 64-bit target. */
  const SizeMax: nat := 0x1_0000_0000_0000_0000 - 1

  /** `index_of`: the position of the signal in `HANDLED_SIGNALS`, or
      `size_t(-1)` when it is not there. */
  method IndexOf(signal: int) returns (i: nat)
    ensures i < |HandledSignals| || i == SizeMax
    ensures i < |HandledSignals| ==>
      HandledSignals[i] == signal && forall j | 0 <= j < i :: HandledSignals[j] != signal
    ensures i == SizeMax <==> signal !in HandledSignals
  {
    i := 0;
    while i < |HandledSignals|
      invariant i <= |HandledSignals|
      invariant forall j | 0 <= j < i :: HandledSignals[j] != signal
    {
      if HandledSignals[i] == signal {
        return;
      }
      i := i + 1;
    }
    i := SizeMax;
  }

  /** The slots of the handled signals are pairwise distinct, lie inside the
      arrays, and are neither of the two slots kept for SIGCONT and SIGTSTP. */
  lemma SlotsDisjoint(i: nat, j: nat)
    requires i < |HandledSignals| && j < |HandledSignals|
    ensures i != j ==> HandledSignals[i] != HandledSignals[j]
    ensures i < MaxSignal && i != IndexHandlerSigcont && i != IndexHandlerSigtstp
    ensures IndexHandlerSigcont != IndexHandlerSigtstp && IndexHandlerSigtstp < MaxSignal
  {
  }
}
