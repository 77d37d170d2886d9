/**
 * The document-level `keydown` listener: it blocks the view-source and
 * developer-tools shortcuts always, and every key when the phase it
 * captured at registration is `Lose`.
 */
module Keys {
  import opened Game

  /** The parts of a `KeyboardEvent` the listener reads. */
  datatype KeyEvent = KeyEvent(ctrlKey: bool, key: string)

  /** Ctrl together with the key value `"u"` (case-sensitive), or `"F12"`. */
  predicate IsBlockedShortcut(e: KeyEvent)
  {
    (e.ctrlKey && e.key == "u") || e.key == "F12"
  }

  /** Whether a listener that captured `captured` blocks the event's default action. */
  predicate Suppresses(e: KeyEvent, captured: Phase)
  {
    IsBlockedShortcut(e) || captured == Lose
  }

  /**
   * The listener body: two independent checks, each of which may call
   * `preventDefault`. `prevented` is the event's `defaultPrevented` flag
   * before and after the listener runs.
   */
  method HandleKeydown(e: KeyEvent, captured: Phase, prevented: bool) returns (defaultPrevented: bool)
    ensures defaultPrevented <==> prevented || Suppresses(e, captured)
    ensures prevented ==> defaultPrevented
  {
    defaultPrevented := prevented;
    if (e.ctrlKey && e.key == "u") || e.key == "F12" {
      defaultPrevented := true;
    }
    if captured == Lose {
      defaultPrevented := true;
    }
  }

  /** Outside a loss only the two shortcuts are blocked: plain `u`, or Ctrl with `"U"` (Shift held), passes. */
  lemma OnlyShortcutsOutsideLoss(e: KeyEvent, captured: Phase)
    requires captured != Lose
    ensures Suppresses(e, captured) <==> IsBlockedShortcut(e)
    ensures !Suppresses(KeyEvent(true, "U"), captured)
    ensures !Suppresses(KeyEvent(false, "u"), captured)
    ensures Suppresses(KeyEvent(false, "F12"), captured)
  {
  }

  /** A listener that captured `Lose` blocks every key. */
  lemma LossBlocksEveryKey(e: KeyEvent)
    ensures Suppresses(e, Lose)
  {
  }
}
