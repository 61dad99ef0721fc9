/** The back-to-top threshold shared by both versions: the control shows once
    the page has scrolled strictly more than 500 pixels. */
module Scroll {

  const Threshold: real := 500.0

  predicate PastThreshold(scrollY: real) {
    scrollY > Threshold
  }

  /** The flag after a run of scroll events, each of which overwrites it. */
  function AfterScrolls(shown: bool, events: seq<real>): bool
    decreases |events|
  {
    if events == [] then shown else AfterScrolls(PastThreshold(events[0]), events[1..])
  }

  /** After any non-empty run of scroll events the flag depends only on the
      last position: it never lags behind and never remembers an earlier one. */
  lemma {:induction false} AfterScrollsIsLast(shown: bool, events: seq<real>)
    requires events != []
    ensures AfterScrolls(shown, events) == PastThreshold(events[|events| - 1])
    decreases |events|
  {
    if |events| > 1 {
      AfterScrollsIsLast(PastThreshold(events[0]), events[1..]);
    }
  }
}
