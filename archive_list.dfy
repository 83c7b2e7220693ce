/**
 * The archive list page: it shows the first `displayCount` of the factory's
 * archives as cards, grows `displayCount` ten at a time with "Load More",
 * and decides which footer (load-more button, "All archives loaded", empty
 * state) to show. Each card reads its archive's address and details, with a
 * retry policy for the details query, shows the archive's statistics and
 * navigates to the archive when clicked.
 */
module ArchiveList {
  import opened JsText

  const PageSize: nat := 10
  const InitialDisplayCount: nat := 10

  function Min(a: int, b: int): int {
    if a <= b then a else b
  }

  /** `Number(totalArchives || 0)`: an unresolved read counts as no archives. */
  function TotalCount(totalArchives: Option<nat>): nat {
    match totalArchives
    case None => 0
    case Some(n) => n
  }

  /** The count after one "Load More": `Math.min(prev + 10, total)`. */
  function NextDisplayCount(prev: nat, total: nat): (r: nat)
    ensures r <= total && r <= prev + PageSize
    ensures r == total || r == prev + PageSize
    ensures prev < total ==> prev < r
  {
    Min(prev + PageSize, total)
  }

  /** The page's own state: how many cards to show. */
  class ArchivesListPage {
    var displayCount: nat

    constructor ()
      ensures displayCount == InitialDisplayCount
    {
      displayCount := InitialDisplayCount;
    }

    /** `handleLoadMore`, with the total the page rendered with. */
    method HandleLoadMore(totalArchivesCount: nat)
      modifies this
      ensures displayCount == NextDisplayCount(old(displayCount), totalArchivesCount)
      ensures old(displayCount) < totalArchivesCount ==>
                old(displayCount) < displayCount <= old(displayCount) + PageSize && displayCount <= totalArchivesCount
    {
      displayCount := Min(displayCount + PageSize, totalArchivesCount);
    }
  }

  /** The count after `clicks` presses of "Load More". */
  function AfterClicks(displayCount: nat, total: nat, clicks: nat): nat
    decreases clicks
  {
    if clicks == 0 then displayCount else AfterClicks(NextDisplayCount(displayCount, total), total, clicks - 1)
  }

  /** How many presses it takes to show every archive: the remaining count over ten, rounded up. */
  function ClicksToLoadAll(displayCount: nat, total: nat): nat {
    if displayCount >= total then 0 else (total - displayCount + PageSize - 1) / PageSize
  }

  /**
   * Pressing "Load More" as often as `ClicksToLoadAll` says shows every archive,
   * and before the last of those presses the button is still on screen.
   */
  lemma {:induction false} LoadMoreReachesTotal(displayCount: nat, total: nat, clicks: nat)
    requires clicks <= ClicksToLoadAll(displayCount, total)
    ensures clicks < ClicksToLoadAll(displayCount, total) ==> AfterClicks(displayCount, total, clicks) < total
    ensures clicks == ClicksToLoadAll(displayCount, total) && displayCount < total ==>
              AfterClicks(displayCount, total, clicks) == total
    decreases clicks
  {
    if clicks > 0 {
      var next := NextDisplayCount(displayCount, total);
      assert displayCount < total;
      if displayCount + PageSize >= total {
        assert ClicksToLoadAll(displayCount, total) == 1;
        assert ClicksToLoadAll(next, total) == 0;
      } else {
        assert next == displayCount + PageSize;
        assert ClicksToLoadAll(displayCount, total) == ClicksToLoadAll(next, total) + 1;
      }
      LoadMoreReachesTotal(next, total, clicks - 1);
    }
  }

  /** What the page renders. */
  datatype ListView = ListView(
    totalShown: Option<nat>,        // the header count; None while it loads (a spinner)
    cards: seq<nat>,                // the index of each card, in order
    loadMoreRemaining: Option<nat>, // the "Load More" button and its "(n remaining)" label
    allLoaded: bool,                // the "All archives loaded" line
    emptyState: bool)               // the "No Archives Yet" block

  /**
   * An archive gets a card exactly when its index is below `displayCount`;
   * cards appear once each, in index order, and only for archives that
   * exist. The load-more button appears exactly when some archive has no
   * card, and its label counts those archives.
   */
  function Render(displayCount: nat, total: nat, totalLoading: bool): (v: ListView)
    ensures forall k :: 0 <= k < total ==> (k in v.cards <==> k < displayCount)
    ensures forall i :: 0 <= i < |v.cards| ==> v.cards[i] < total
    ensures forall i, j :: 0 <= i < j < |v.cards| ==> v.cards[i] < v.cards[j]
    ensures v.loadMoreRemaining.Some? ==> |v.cards| + v.loadMoreRemaining.value == total
    ensures v.loadMoreRemaining.None? ==> |v.cards| == total
    ensures v.loadMoreRemaining.Some? <==> displayCount < total
  {
    var cards := seq(Min(displayCount, total), i => i);
    IndicesAreCards(cards);
    ListView(
      if totalLoading then None else Some(total),
      cards,
      if displayCount < total then Some(total - displayCount) else None,
      displayCount >= total && total > 0,
      !totalLoading && total == 0)
  }

  /** The cards `0, 1, ..., n - 1` hold exactly the indices below `n`. */
  lemma IndicesAreCards(cards: seq<nat>)
    requires forall i :: 0 <= i < |cards| ==> cards[i] == i
    ensures forall k: nat :: k in cards <==> k < |cards|
  {
    forall k: nat | k < |cards|
      ensures k in cards
    {
      assert cards[k] == k;
    }
  }

  /**
   * A total that could not be read counts as zero archives: once loading has
   * stopped the page shows "No Archives Yet" and no cards, whatever
   * `displayCount` is.
   */
  lemma UnreadTotalShowsEmptyState(displayCount: nat)
    ensures var v := Render(displayCount, TotalCount(None), false);
            v.emptyState && v.cards == [] && v.loadMoreRemaining.None? && !v.allLoaded
            && v.totalShown == Some(0)
  {
  }

  /**
   * With archives to show, exactly one of the load-more button and "All
   * archives loaded" appears and the empty state does not; with none (once
   * the count has loaded) only the empty state appears.
   */
  lemma FooterIsExclusive(displayCount: nat, total: nat, totalLoading: bool)
    ensures var v := Render(displayCount, total, totalLoading);
      total > 0 ==> (v.loadMoreRemaining.Some? != v.allLoaded) && !v.emptyState
    ensures var v := Render(displayCount, total, totalLoading);
      total == 0 && !totalLoading ==> v.emptyState && v.loadMoreRemaining.None? && !v.allLoaded && v.cards == []
  {
  }

  /** Pressing the button whenever it is shown adds between one and ten cards, never more than exist. */
  lemma LoadMoreGrowsCards(displayCount: nat, total: nat, totalLoading: bool)
    requires Render(displayCount, total, totalLoading).loadMoreRemaining.Some?
    ensures var before := Render(displayCount, total, totalLoading).cards;
            var after := Render(NextDisplayCount(displayCount, total), total, totalLoading).cards;
            |before| < |after| <= |before| + PageSize && |after| <= total && before <= after
  {
  }

  /**
   * The details query's `retry`: never after an error whose message contains
   * "contract" (case-sensitive), otherwise while fewer than three failures
   * have been seen.
   */
  function ShouldRetry(failureCount: nat, message: string): (r: bool)
    ensures (exists i :: OccursAt(message, "contract", i)) ==> !r
    ensures (forall i :: !OccursAt(message, "contract", i)) ==> (r <==> failureCount < 3)
  {
    IncludesAt(message, "contract");
    if Includes(message, "contract") then false else failureCount < 3
  }

  /** A transient error is retried on exactly the failure counts 0, 1 and 2. */
  lemma RetriesAtMostThree(message: string)
    requires forall i :: !OccursAt(message, "contract", i)
    ensures forall n: nat :: ShouldRetry(n, message) <==> n < 3
  {
  }

  function Pow2(n: nat): (p: nat)
    ensures p >= 1
  {
    if n == 0 then 1 else 2 * Pow2(n - 1)
  }

  /** The details query's `retryDelay`: `Math.min(1000 * 2 ** attemptIndex, 30000)` milliseconds. */
  function RetryDelay(attemptIndex: nat): (ms: nat)
    ensures 1000 <= ms <= 30000
  {
    Min(1000 * Pow2(attemptIndex), 30000)
  }

  lemma {:induction false} Pow2Monotone(m: nat, n: nat)
    requires m <= n
    ensures Pow2(m) <= Pow2(n)
    decreases n
  {
    if m < n {
      Pow2Monotone(m, n - 1);
    }
  }

  /** From the sixth attempt on, the delay is the 30-second cap. */
  lemma RetryDelayCapped(attemptIndex: nat)
    requires attemptIndex >= 5
    ensures RetryDelay(attemptIndex) == 30000
  {
    Pow2Monotone(5, attemptIndex);
    assert Pow2(5) == 32;
  }

  /** Below the cap the delay doubles, so it strictly increases over attempts 0 to 5. */
  lemma RetryDelayIncreasing(attemptIndex: nat)
    requires attemptIndex < 5
    ensures RetryDelay(attemptIndex) < RetryDelay(attemptIndex + 1)
    ensures attemptIndex < 4 ==> RetryDelay(attemptIndex + 1) == 2 * RetryDelay(attemptIndex)
  {
    assert Pow2(4) == 16;
    Pow2Monotone(attemptIndex, 4);
  }

  /** The three retries of a transient error wait 1, 2 and 4 seconds. */
  lemma RetrySchedule()
    ensures RetryDelay(0) == 1000 && RetryDelay(1) == 2000 && RetryDelay(2) == 4000
  {
  }

  /** The `getArchiveInfo` tuple. */
  datatype ArchiveInfo = ArchiveInfo(nextArtifactId: nat, totalBalance: nat, totalDonorCount: nat)

  /** A statistic as the card shows it: a number, or "—". */
  datatype Stat = Shown(value: int) | Dash

  /** The "Memories" figure: one less than the next artifact id, or "—" without good data. */
  function Memories(stats: Option<ArchiveInfo>, statsError: bool): Stat {
    if stats.Some? && !statsError then Shown(stats.value.nextArtifactId - 1) else Dash
  }

  /** The "Donors" figure: the donor count, or "—" without good data. */
  function Donors(stats: Option<ArchiveInfo>, statsError: bool): Stat {
    if stats.Some? && !statsError then Shown(stats.value.totalDonorCount) else Dash
  }

  /**
   * Memories and Donors are shown together, exactly when the statistics
   * were read without error, and dashed together otherwise.
   */
  lemma StatsShownTogether(stats: Option<ArchiveInfo>, statsError: bool)
    ensures Memories(stats, statsError).Shown? <==> Donors(stats, statsError).Shown?
    ensures Memories(stats, statsError).Shown? <==> stats.Some? && !statsError
  {
  }

  /**
   * The values the figures can take: Donors is never negative; Memories is
   * at least -1, and it is negative exactly for an archive whose next
   * artifact id is still 0, which the page then shows as "-1".
   */
  lemma StatValues(stats: Option<ArchiveInfo>, statsError: bool)
    ensures Donors(stats, statsError).Shown? ==> Donors(stats, statsError).value >= 0
    ensures Memories(stats, statsError).Shown? ==>
              Memories(stats, statsError).value >= -1
              && (Memories(stats, statsError).value < 0 <==> stats.value.nextArtifactId == 0)
    ensures Memories(Some(ArchiveInfo(0, 0, 0)), false) == Shown(-1)
  {
  }

  /** The state of one card's address and details queries. */
  datatype CardQuery = CardQuery(addressLoading: bool, addressError: bool, detailsLoading: bool, address: Option<string>)

  predicate IsLoading(q: CardQuery) {
    q.addressLoading || q.detailsLoading
  }

  /** An address error counts only once the address read has stopped loading. */
  predicate CriticalError(q: CardQuery) {
    q.addressError && !q.addressLoading
  }

  /** The address is truthy: present and not the empty string. */
  predicate HasAddress(q: CardQuery) {
    q.address.Some? && q.address.value != ""
  }

  /** What a card renders: the error card, the skeleton, or the archive's details. */
  datatype CardView = Unavailable | Skeleton | Details

  /**
   * The details are shown only once both reads have finished without a
   * critical error; the error card only for an address error.
   */
  function View(q: CardQuery): (v: CardView)
    ensures v == Details ==> !q.addressLoading && !q.detailsLoading && !CriticalError(q)
    ensures v == Unavailable <==> q.addressError && !q.addressLoading
    ensures v == Skeleton <==> !CriticalError(q) && IsLoading(q)
  {
    if CriticalError(q) then Unavailable else if IsLoading(q) then Skeleton else Details
  }

  /** `handleCardClick`: where a click on the card navigates, if anywhere. */
  function ClickTarget(q: CardQuery): (r: Option<string>)
    ensures r.Some? <==> View(q) == Details && HasAddress(q)
    ensures r.Some? ==> r.value == "/archive/" + q.address.value
  {
    if !IsLoading(q) && HasAddress(q) && !CriticalError(q) then Some("/archive/" + q.address.value) else None
  }

  /** `handleCardKeyDown`: Enter and Space act like a click; other keys do nothing. */
  function KeyTarget(key: string, q: CardQuery): (r: Option<string>)
    ensures r.Some? ==> (key == "Enter" || key == " ") && r == ClickTarget(q)
    ensures (key == "Enter" || key == " ") ==> r == ClickTarget(q)
  {
    if (key == "Enter" || key == " ") && !IsLoading(q) && HasAddress(q) && !CriticalError(q)
    then Some("/archive/" + q.address.value) else None
  }

  /**
   * A card that is not showing its details (the error card or the skeleton)
   * ignores clicks, Enter and Space; a card showing its details with an
   * address answers all three with the same navigation.
   */
  lemma NavigationMatchesView(q: CardQuery)
    ensures View(q) != Details ==>
              ClickTarget(q).None? && KeyTarget("Enter", q).None? && KeyTarget(" ", q).None?
    ensures View(q) == Details && HasAddress(q) ==>
              ClickTarget(q).Some? && KeyTarget("Enter", q) == ClickTarget(q) && KeyTarget(" ", q) == ClickTarget(q)
  {
  }
}
