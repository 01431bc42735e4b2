/**
 * Swap requests: the status and type of a swap and the questions the
 * workflow asks about them.
 */
module Swaps {

  datatype SwapStatus = Requested | Accepted | Rejected | InTransit | Completed | Cancelled

  datatype SwapType = ItemSwap | PointRedemption | MysteryBox

  /** The part of a swap the predicates look at; the parties, items, messages and dates are left out. */
  datatype Swap = Swap(swapType: SwapType, status: SwapStatus, pointsUsed: nat)

  /** A swap as created with the column defaults: an item-for-item request using no points. */
  function NewSwap(): Swap {
    Swap(ItemSwap, Requested, 0)
  }

  /** `is_point_redemption`. */
  function IsPointRedemption(s: Swap): bool
  {
    s.swapType == PointRedemption
  }

  /** `is_mystery_box`. */
  function IsMysteryBox(s: Swap): bool
  {
    s.swapType == MysteryBox
  }

  /** `can_be_accepted`: only a swap still waiting for the owner's answer. */
  function CanBeAccepted(s: Swap): bool
  {
    s.status == Requested
  }

  /** `can_be_cancelled`: any swap that has not been rejected, completed or cancelled already. */
  function CanBeCancelled(s: Swap): (r: bool)
    ensures r <==> s.status != Rejected && s.status != Completed && s.status != Cancelled
  {
    match s.status
    case Requested | Accepted | InTransit => true
    case Rejected | Completed | Cancelled => false
  }

  /** A swap that can be accepted can also be cancelled. */
  lemma AcceptableIsCancellable(s: Swap)
    requires CanBeAccepted(s)
    ensures CanBeCancelled(s)
  {
  }

  /** A rejected, completed or cancelled swap can be neither accepted nor cancelled. */
  lemma FinishedSwapIsFrozen(s: Swap)
    requires s.status in {Rejected, Completed, Cancelled}
    ensures !CanBeAccepted(s) && !CanBeCancelled(s)
  {
  }

  /** Accepted and in-transit swaps can still be cancelled but no longer accepted. */
  lemma UnderwaySwapIsCancellableOnly(s: Swap)
    requires s.status == Accepted || s.status == InTransit
    ensures !CanBeAccepted(s) && CanBeCancelled(s)
  {
  }

  /** No swap is both a point redemption and a mystery box. */
  lemma KindsAreExclusive(s: Swap)
    ensures !(IsPointRedemption(s) && IsMysteryBox(s))
  {
  }

  /** A new swap is an item swap using no points, and can be accepted and cancelled. */
  lemma NewSwapIsOpen()
    ensures NewSwap().status == Requested && NewSwap().swapType == ItemSwap && NewSwap().pointsUsed == 0
    ensures CanBeAccepted(NewSwap()) && CanBeCancelled(NewSwap())
    ensures !IsPointRedemption(NewSwap()) && !IsMysteryBox(NewSwap())
  {
  }
}
