/** The site-wide "quote request" dialog flag: a boolean store that starts
    closed and has two setters. */
module QuoteStore {

  class QuoteStore {
    /** `isQuoteModalOpen`. */
    var isOpen: bool

    /** `atom(false)`: the dialog starts closed. */
    constructor ()
      ensures !isOpen
    {
      isOpen := false;
    }

    /** `openQuoteModal()`. */
    method OpenQuoteModal()
      modifies this
      ensures isOpen == After(old(isOpen), Open)
    {
      isOpen := true;
    }

    /** `closeQuoteModal()`. */
    method CloseQuoteModal()
      modifies this
      ensures isOpen == After(old(isOpen), Close)
    {
      isOpen := false;
    }
  }

  /** The two calls the store offers. */
  datatype Call = Open | Close

  /** The flag after one call, whatever it was before. */
  function After(flag: bool, call: Call): (r: bool)
    ensures r <==> call == Open
  {
    match call
    case Open => true
    case Close => false
  }

  /** The flag after a sequence of calls, first call first. */
  function Replay(flag: bool, calls: seq<Call>): bool
    decreases |calls|
  {
    if calls == [] then flag else Replay(After(flag, calls[0]), calls[1..])
  }

  /** After any non-empty sequence of calls the flag is set exactly when
      the last call was `openQuoteModal`. */
  lemma {:induction false} LastCallDecides(flag: bool, calls: seq<Call>)
    requires calls != []
    ensures Replay(flag, calls) <==> calls[|calls| - 1] == Open
    decreases |calls|
  {
    if |calls| > 1 {
      LastCallDecides(After(flag, calls[0]), calls[1..]);
    }
  }

  /** Repeating a call changes nothing: each operation is idempotent. */
  lemma RepeatedCall(flag: bool, calls: seq<Call>, call: Call)
    ensures Replay(flag, calls + [call, call]) == Replay(flag, calls + [call])
  {
    LastCallDecides(flag, calls + [call, call]);
    LastCallDecides(flag, calls + [call]);
  }

  /** From a fresh store, no calls leave the dialog closed. */
  lemma StartsClosed(calls: seq<Call>)
    ensures Replay(false, calls) <==> calls != [] && calls[|calls| - 1] == Open
  {
    if calls != [] {
      LastCallDecides(false, calls);
    }
  }
}
