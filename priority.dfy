/**
 * The priority engine: a task's tier is derived from the length of its text,
 * and a fixed weight table orders the tiers for display.
 */
module PriorityEngine {

  datatype Priority = Low | Medium | High

  /** `priority(t)`: longer than 30 characters is High, longer than 15 is Medium, anything else Low. */
  function Classify(t: string): (p: Priority)
    ensures p == High <==> |t| > 30
    ensures p == Medium <==> 15 < |t| <= 30
    ensures p == Low <==> |t| <= 15
  {
    if |t| > 30 then High
    else if |t| > 15 then Medium
    else Low
  }

  /** The weight table `{ High: 3, Medium: 2, Low: 1 }` used by the display sort. */
  function Weight(p: Priority): (w: int)
    ensures 1 <= w <= 3
  {
    match p
    case High => 3
    case Medium => 2
    case Low => 1
  }

  /** The weights tell the tiers apart and rank them High above Medium above Low. */
  lemma WeightRanksTiers(p: Priority, q: Priority)
    ensures Weight(p) == Weight(q) <==> p == q
    ensures Weight(Low) < Weight(Medium) < Weight(High)
  {
  }

  /** A longer text never gets a lower tier. */
  lemma ClassifyMonotone(s: string, t: string)
    requires |s| <= |t|
    ensures Weight(Classify(s)) <= Weight(Classify(t))
  {
  }
}
