/** The e-commerce dashboard's `dashboard` slice: the last statistics
    loaded, the fetch status, and when they were loaded. */
module ShopDashboard {
  import opened Wrappers
  import opened ShopApi

  datatype DashboardState = DashboardState(stats: Stats, loading: bool, error: Option<string>, lastUpdated: Option<int>)

  /** The statistics shown before the first load: zero counts, empty
      collections. */
  function EmptyStats(): (r: Stats)
    ensures r.totalOrders == 0 && r.totalProducts == 0 && r.totalCustomers == 0
    ensures r.statusCounts == map[] && r.topProducts == [] && r.recentOrders == []
  {
    Stats(0, 0, 0, map[], [], [])
  }

  function InitialDashboard(): (r: DashboardState)
    ensures r.stats == EmptyStats() && !r.loading && r.error == None && r.lastUpdated == None
  {
    DashboardState(EmptyStats(), false, None, None)
  }

  /** `clearDashboardError`. */
  function ClearDashboardError(st: DashboardState): (r: DashboardState)
    ensures r.error == None && r.(error := st.error) == st
  {
    st.(error := None)
  }

  /** `getDashboardStats.pending`. */
  function StatsPending(st: DashboardState): (r: DashboardState)
    ensures r.loading && r.error == None
    ensures r.stats == st.stats && r.lastUpdated == st.lastUpdated
  {
    st.(loading := true, error := None)
  }

  /** `getDashboardStats.fulfilled`: the payload replaces the statistics and
      the load time (`now`) is recorded; the error is left as it was. */
  function StatsFulfilled(st: DashboardState, stats: Stats, now: int): (r: DashboardState)
    ensures !r.loading && r.stats == stats && r.lastUpdated == Some(now)
    ensures r.error == st.error
  {
    st.(loading := false, stats := stats, lastUpdated := Some(now))
  }

  /** `getDashboardStats.rejected`: the statistics already shown stay. */
  function StatsRejected(st: DashboardState, message: Option<string>): (r: DashboardState)
    ensures !r.loading && r.error == message
    ensures r.stats == st.stats && r.lastUpdated == st.lastUpdated
  {
    st.(loading := false, error := message)
  }

  /** A failed refresh after a successful load keeps what was loaded. */
  lemma FailedRefreshKeepsStats(st: DashboardState, db: Db, now: int, message: Option<string>)
    ensures var loaded := StatsFulfilled(StatsPending(st), DashboardStats(db), now);
      var failed := StatsRejected(StatsPending(loaded), message);
      failed.stats == DashboardStats(db) && failed.lastUpdated == Some(now)
      && failed.stats.totalOrders == |db.orders|
  {
  }
}
