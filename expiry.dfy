/**
 * The expiry classifier behind the "Check Expiry" button: a row is coloured red
 * when its expiry day has passed and orange when it falls inside the next
 * thirty days. Dates are day numbers (days since some fixed epoch), so
 * "today + 30 days" is plain addition.
 */
module Expiry {

  /** Length of the "expiring soon" window, in days. */
  const ExpiryWindow := 30

  /** The Treeview tag a row carries after a check: `expired`, `expiring_soon` or none. */
  datatype Tag = Untagged | Expired | ExpiringSoon

  /** The tag for a medicine expiring on day `exp`, checked on day `today`. */
  function Classify(exp: int, today: int): (t: Tag)
    ensures t == Expired <==> exp < today
    ensures t == ExpiringSoon <==> today <= exp <= today + ExpiryWindow
    ensures t == Untagged <==> today + ExpiryWindow < exp
  {
    if exp < today then Expired
    else if today <= exp <= today + ExpiryWindow then ExpiringSoon
    else Untagged
  }

  /** The window is inclusive at both ends and stops after thirty days. */
  lemma WindowBoundaries(today: int)
    ensures Classify(today - 1, today) == Expired
    ensures Classify(today, today) == ExpiringSoon
    ensures Classify(today + 30, today) == ExpiringSoon
    ensures Classify(today + 31, today) == Untagged
  {
  }

  /** As the expiry day moves later, the tag only moves from Expired towards Untagged. */
  lemma ClassifyMonotone(e1: int, e2: int, today: int)
    requires e1 <= e2
    ensures Classify(e1, today) == Untagged ==> Classify(e2, today) == Untagged
    ensures Classify(e2, today) == Expired ==> Classify(e1, today) == Expired
  {
  }
}
