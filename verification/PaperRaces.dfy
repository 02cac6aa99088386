/** Processing a setup split at its awaits. */
module PaperRaces {
  import opened Common
  import opened PaperLedger
  import opened PaperLaws
  import opened PaperRuns
  import Fills = BacktestExecution

  // The status check and the counters come before, the entry and the new status after.

  predicate IsEntered(s: Ledger, setupId: string) { setupId in s.setups && s.setups[setupId] == Entered }

  /** The check that lets a triggered setup go on to its entry. */
  predicate Proceeds(s: Ledger, r: EntryRequest) {
    (r.setupId in s.setups ==> s.setups[r.setupId] == Armed) && r.allowed
  }

  /** What the part before the awaits leaves behind. */
  function Checked(s: Ledger, r: EntryRequest): Ledger {
    if r.setupId in s.setups then s
    else s.(counters := s.counters.(detected := s.counters.detected + 1, approved := s.counters.approved + 1))
  }

  /** The part after the awaits, on whatever the ledger has become. */
  function Finished(c: PaperConfig, s: Ledger, r: EntryRequest, quote: Option<Quote>, now: int): Ledger {
    if quote.None? then Note(s, r.setupId, Armed)
    else
      var (verdict, t) := Enter(c, s, r, quote.value, now);
      match verdict
      case Done => Note(t, r.setupId, Entered)
      case Refused => Note(t, r.setupId, Armed)
      case Raised => t
  }

  /** Without an overlap the two parts are the whole step. */
  lemma ProcessSplits(c: PaperConfig, s: Ledger, r: EntryRequest, quote: Option<Quote>, now: int)
    requires Proceeds(s, r)
    ensures Process(c, s, r.setupId, Some(r), quote, now) == Finished(c, Checked(s, r), r, quote, now)
  {
    hide Enter;
  }

  /** The entry of a setup that has a position is refused as a duplicate. */
  lemma DuplicateRefused(c: PaperConfig, s: Ledger, r: EntryRequest, quote: Option<Quote>, now: int)
    requires Good(s) && IsEntered(s, r.setupId)
    ensures Finished(c, s, r, quote, now) == Note(s, r.setupId, Armed)
    ensures exists p <- s.positions :: p.setupId == r.setupId
  {
    hide Conserved, Aligned, PositionsDistinct, TradesMatch, Booked, BasePrice, QuoteFresh, HasFilledOrder;
    var p :| p in s.positions && p.setupId == r.setupId;
    var i :| 0 <= i < |s.positions| && s.positions[i] == p;
    FilledOrderOf(s, i);
  }

  /**
   The second part keeps the invariant exactly when the setup has not become
   ENTERED since its check; otherwise it writes ARMED over ENTERED.
   */
  lemma FinishExactly(c: PaperConfig, s: Ledger, r: EntryRequest, quote: Option<Quote>, now: int)
    requires Good(s)
    ensures Good(Finished(c, s, r, quote, now)) <==> !IsEntered(s, r.setupId)
  {
    hide Sound, Enter;
    if IsEntered(s, r.setupId) {
      DuplicateRefused(c, s, r, quote, now);
    } else if quote.None? {
      NoteGood(s, r.setupId, Armed);
    } else {
      ProcessEnterGood(c, s, r, quote.value, now);
    }
  }

  /**
   Two passes that both check a setup before either enters it: once the first has
   entered, the second puts it back to ARMED, and its position stays behind.
   */
  lemma OverlapUndoesEntered(c: PaperConfig, s: Ledger, r: EntryRequest, first: Option<Quote>, second: Option<Quote>,
                             now: int, later: int)
    requires Good(s) && Proceeds(s, r)
    requires IsEntered(Finished(c, Checked(Checked(s, r), r), r, first, now), r.setupId)
    ensures Proceeds(Checked(s, r), r)
    ensures var entered := Finished(c, Checked(Checked(s, r), r), r, first, now);
      var after := Finished(c, entered, r, second, later);
      && after == Note(entered, r.setupId, Armed) && !Good(after)
      && (exists p <- after.positions :: p.setupId == r.setupId)
  {
    hide Sound, SetupsMatch, Enter, Finished;
    var both := Checked(Checked(s, r), r);
    SoundFrame(s, both);
    FinishExactly(c, both, r, first, now);
    var entered := Finished(c, both, r, first, now);
    DuplicateRefused(c, entered, r, second, later);
    FinishExactly(c, entered, r, second, later);
  }

  /** The overlap occurs on a new account: a triggered, allowed setup and a fresh quote. */
  lemma OverlapOccurs(c: PaperConfig, now: int)
    requires c.model == LastPrice && c.maxStaleSeconds >= 0
    ensures var s, q := NewLedger(1000.0, now), Quote(None, None, Some(100.0), now);
      var r := EntryRequest("x:breakout:1", "x", Long, true, Some(100.0), Some(99.0), Some(102.0), true, 1.0, 5.0, 1.0,
                            None);
      && Good(s) && Proceeds(s, r)
      && IsEntered(Finished(c, Checked(Checked(s, r), r), r, Some(q), now), r.setupId)
  {
    hide Refreshed, EntryOrders, NewPosition, FillRates;
    var s, q := NewLedger(1000.0, now), Quote(None, None, Some(100.0), now);
    var r := EntryRequest("x:breakout:1", "x", Long, true, Some(100.0), Some(99.0), Some(102.0), true, 1.0, 5.0, 1.0,
                          None);
    NewGood(1000.0, now);
    assert !EntryBlocked(c, Checked(Checked(s, r), r), r, q, now);
    FillPositive(c);
  }

  lemma FillPositive(c: PaperConfig)
    ensures Fills.SlippedPrice(FillRates(c), 100.0, Long, true) > 0.0
  {
  }
}
