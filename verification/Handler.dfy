/** The bookings list endpoint: the handler's page checks over the repository's query. */
module Handler {
  import opened Prelude
  import opened Pagination
  import opened Repository

  class BookingsHandler {
    const db: Database
    const cfg: PageConfig

    constructor (db: Database, cfg: PageConfig)
      ensures this.db == db && this.cfg == cfg
    {
      this.db, this.cfg := db, cfg;
    }

    /** `GetBookingsList` for an administrator. */
    method GetBookingsList(pageParam: Option<int64>, sizeParam: Option<int64>) returns (r: ListResponse)
      ensures r == ListResponseOf(cfg, Listed(db.bookings), pageParam, sizeParam)
    {
      var page := cfg.defaultPage;
      if pageParam.Some? {
        page := ToUint64(pageParam.value);
        if page < cfg.minPage {
          return InvalidPage;
        }
      }
      var pageSize := cfg.defaultSize;
      if sizeParam.Some? {
        pageSize := ToUint64(sizeParam.value);
        if pageSize > cfg.maxSize || pageSize < cfg.minSize {
          return InvalidPageSize;
        }
      }
      r := Respond(page, pageSize);
    }

    /** The service call and the response for it. */
    method Respond(page: uint64, pageSize: uint64) returns (r: ListResponse)
      ensures r == PageResponse(Listed(db.bookings), page, pageSize)
    {
      var list := db.List(pageSize, ToUint64(page - 1));
      if list.Err? {
        return ListFailed;
      }
      r := Page(list.value.bookings, ToInt64(page), ToInt64(pageSize), ToInt64(list.value.total));
    }
  }
}
