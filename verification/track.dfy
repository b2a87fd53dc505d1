/**
  The analytics collector: a POST with a JSON body `{ path, type }` records
  a page view or a tool use for today's date. Page views count per
  (date, path) row in `pv`, and in `uv` once per visitor, where a visitor is
  the hash of address, user agent and date, remembered in a visitor table.
  The date, the visitor hash and the parsed body are inputs here; the two
  database tables are a map of counter rows and a set of visits.
 */
module Track {
  import opened Common

  const ValidPaths: set<string> := {
    "/pdf/merge", "/pdf/split", "/pdf/compress", "/pdf/to-image",
    "/pdf/watermark", "/pdf/to-word", "/pdf/rotate", "/pdf/encrypt", "/pdf/decrypt",
    "/image/compress", "/image/convert", "/image/resize", "/image/crop",
    "/image/stitch", "/image/heic", "/image/to-pdf",
    "/doc/editor", "/doc/md-to-pdf", "/doc/word-count", "/doc/word-to-pdf"
  }

  /** The fields of a parsed JSON body. */
  datatype TrackBody = TrackBody(path: Option<string>, kind: Option<string>)

  /** A `daily_stats` row. */
  datatype Counters = Counters(pv: nat, uv: nat, uses: nat)

  /** `daily_stats` keyed by (date, path), and `daily_visitors` as a set of
      (date, path, visitor hash). */
  datatype Tables = Tables(stats: map<(string, string), Counters>, visitors: set<(string, string, string)>)

  /** The response status and the tables after a request. */
  datatype Outcome = Outcome(status: int, tables: Tables)

  const BadRequest: int := 400
  const NoContent: int := 204

  /** A body that passes validation: it parsed, and has a known path and one
      of the two event types. */
  predicate Valid(body: Option<TrackBody>) {
    && body.Some?
    && body.value.path.Some? && body.value.path.value != ""
    && body.value.kind.Some? && body.value.kind.value != ""
    && body.value.path.value in ValidPaths
    && (body.value.kind.value == "pageview" || body.value.kind.value == "usage")
  }

  /** The counters of a row, with the column defaults for a missing row. */
  function Counts(t: Tables, key: (string, string)): Counters {
    if key in t.stats then t.stats[key] else Counters(0, 0, 0)
  }

  /** The page-view upsert and the visitor insert. */
  function PageView(t: Tables, date: string, path: string, visitorHash: string): Tables {
    var key := (date, path);
    var isNewVisitor := (date, path, visitorHash) !in t.visitors;
    var inc := if isNewVisitor then 1 else 0;
    var row :=
      if key in t.stats then Counters(t.stats[key].pv + 1, t.stats[key].uv + inc, t.stats[key].uses)
      else Counters(1, inc, 0);
    Tables(t.stats[key := row], if isNewVisitor then t.visitors + {(date, path, visitorHash)} else t.visitors)
  }

  /** The usage upsert. */
  function Usage(t: Tables, date: string, path: string): Tables {
    var key := (date, path);
    var row := if key in t.stats then t.stats[key].(uses := t.stats[key].uses + 1) else Counters(0, 0, 1);
    Tables(t.stats[key := row], t.visitors)
  }

  /** `onRequestPost`. */
  function Handle(t: Tables, body: Option<TrackBody>, date: string, visitorHash: string): Outcome {
    if !Valid(body) then Outcome(BadRequest, t)
    else if body.value.kind.value == "pageview" then Outcome(NoContent, PageView(t, date, body.value.path.value, visitorHash))
    else Outcome(NoContent, Usage(t, date, body.value.path.value))
  }

  class Collector {
    var stats: map<(string, string), Counters>
    var visitors: set<(string, string, string)>

    constructor()
      ensures stats == map[] && visitors == {}
    {
      stats := map[];
      visitors := {};
    }

    /** One POST request. */
    method Post(body: Option<TrackBody>, date: string, visitorHash: string) returns (status: int)
      modifies this
      ensures Outcome(status, Tables(stats, visitors))
              == Handle(Tables(old(stats), old(visitors)), body, date, visitorHash)
    {
      if body.None? {
        return BadRequest;
      }
      var path, kind := body.value.path, body.value.kind;
      if path.None? || path.value == "" || kind.None? || kind.value == "" || path.value !in ValidPaths {
        return BadRequest;
      }
      if kind.value != "pageview" && kind.value != "usage" {
        return BadRequest;
      }
      var key := (date, path.value);
      if kind.value == "pageview" {
        var isNewVisitor := (date, path.value, visitorHash) !in visitors;
        var inc := if isNewVisitor then 1 else 0;
        if key in stats {
          stats := stats[key := Counters(stats[key].pv + 1, stats[key].uv + inc, stats[key].uses)];
        } else {
          stats := stats[key := Counters(1, inc, 0)];
        }
        if isNewVisitor {
          visitors := visitors + {(date, path.value, visitorHash)};
        }
      } else {
        if key in stats {
          stats := stats[key := stats[key].(uses := stats[key].uses + 1)];
        } else {
          stats := stats[key := Counters(0, 0, 1)];
        }
      }
      return NoContent;
    }
  }

  // ---------------------------------------------------------------------------
  // Properties
  // ---------------------------------------------------------------------------

  /** A request that fails validation is answered 400 and changes nothing;
      every other one is answered 204. */
  lemma StatusProperties(t: Tables, body: Option<TrackBody>, date: string, visitorHash: string)
    ensures var r := Handle(t, body, date, visitorHash);
            && (r.status == BadRequest <==> !Valid(body))
            && (r.status == BadRequest ==> r.tables == t)
            && (r.status == NoContent <==> Valid(body))
  {
  }

  /** Validation rejects an unparsable body, a missing field, an unknown path
      and an unknown event type. */
  lemma ValidExactly(body: Option<TrackBody>)
    ensures Valid(body) <==>
              && body.Some? && body.value.path.Some? && body.value.kind.Some?
              && body.value.path.value in ValidPaths
              && body.value.kind.value in {"pageview", "usage"}
  {
    assert "" !in ValidPaths;
  }

  /** A page view adds exactly 1 to `pv`, adds 1 to `uv` exactly when the
      visitor had not been recorded for the row, and records it. */
  lemma PageViewCounts(t: Tables, date: string, path: string, visitorHash: string)
    ensures var after := PageView(t, date, path, visitorHash);
            var before := Counts(t, (date, path));
            && Counts(after, (date, path)).pv == before.pv + 1
            && Counts(after, (date, path)).uv
               == before.uv + (if (date, path, visitorHash) in t.visitors then 0 else 1)
            && Counts(after, (date, path)).uses == before.uses
            && (date, path, visitorHash) in after.visitors
            && t.visitors <= after.visitors
  {
  }

  /** A usage event adds exactly 1 to `uses` and leaves `pv`, `uv` and the
      visitors alone. */
  lemma UsageCounts(t: Tables, date: string, path: string)
    ensures var after := Usage(t, date, path);
            var before := Counts(t, (date, path));
            && Counts(after, (date, path)) == before.(uses := before.uses + 1)
            && after.visitors == t.visitors
  {
  }

  /** Only the request's (date, path) row changes, and no row disappears. */
  lemma OnlyOneRow(t: Tables, body: Option<TrackBody>, date: string, visitorHash: string, key: (string, string))
    requires Valid(body) && key != (date, body.value.path.value)
    ensures var after := Handle(t, body, date, visitorHash).tables;
            && (key in after.stats <==> key in t.stats)
            && Counts(after, key) == Counts(t, key)
  {
  }

  /** The visitors recorded for a row. */
  function VisitorsOf(visitors: set<(string, string, string)>, key: (string, string)): set<string> {
    set v | v in visitors && v.0 == key.0 && v.1 == key.1 :: v.2
  }

  /** Every row's `uv` is the number of its recorded visitors and at most its
      `pv`, and every recorded visitor has a row. */
  ghost predicate Consistent(t: Tables) {
    && (forall key :: key in t.stats ==>
          t.stats[key].uv == |VisitorsOf(t.visitors, key)| && t.stats[key].uv <= t.stats[key].pv)
    && (forall v :: v in t.visitors ==> (v.0, v.1) in t.stats)
  }

  lemma EmptyConsistent()
    ensures Consistent(Tables(map[], {}))
  {
  }

  lemma VisitorsOfAdd(visitors: set<(string, string, string)>, v: (string, string, string), key: (string, string))
    requires v !in visitors
    ensures key == (v.0, v.1) ==> VisitorsOf(visitors + {v}, key) == VisitorsOf(visitors, key) + {v.2}
    ensures key == (v.0, v.1) ==> v.2 !in VisitorsOf(visitors, key)
    ensures key != (v.0, v.1) ==> VisitorsOf(visitors + {v}, key) == VisitorsOf(visitors, key)
  {
  }

  /** Starting from empty tables, every sequence of requests keeps `uv`
      equal to the number of distinct visitors and never above `pv`. */
  lemma HandleKeepsConsistent(t: Tables, body: Option<TrackBody>, date: string, visitorHash: string)
    requires Consistent(t)
    ensures Consistent(Handle(t, body, date, visitorHash).tables)
  {
    if Valid(body) && body.value.kind.value == "pageview" {
      var path := body.value.path.value;
      var v := (date, path, visitorHash);
      var after := PageView(t, date, path, visitorHash);
      forall key | key in after.stats
        ensures after.stats[key].uv == |VisitorsOf(after.visitors, key)|
      {
        if v !in t.visitors {
          VisitorsOfAdd(t.visitors, v, key);
          if key == (date, path) && (date, path) !in t.stats {
            assert VisitorsOf(t.visitors, key) == {};
          }
        }
      }
    }
  }
}
