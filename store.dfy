/** The SQLite `listings` table, keyed by `listing_id` (its primary key), and its schema
    upgrade. A row is one `Reconcile.Row`; the table's column list is kept apart. */
module Store {
  import opened Opt
  import opened Reconcile

  // ---------------------------------------------------------------------------
  // Rows

  /** `UPDATE listings SET last_seen_at=? WHERE listing_id=?`: a missing id matches no row. */
  function Touched(rows: map<string, Row>, id: string, now: string): map<string, Row> {
    if id in rows then rows[id := rows[id].(lastSeenAt := now)] else rows
  }

  /** `INSERT ... ON CONFLICT(listing_id) DO UPDATE SET` every other column: the new row
      replaces the old one whole. */
  function Upserted(rows: map<string, Row>, row: Row): map<string, Row> {
    rows[row.listingId := row]
  }

  /** A touch changes `last_seen_at` of the one row it names and nothing else; it never
      adds a row. */
  lemma TouchOnlyLastSeen(rows: map<string, Row>, id: string, now: string)
    ensures Touched(rows, id, now).Keys == rows.Keys
    ensures forall k :: k in rows && k != id ==> Touched(rows, id, now)[k] == rows[k]
    ensures id in rows ==> Touched(rows, id, now)[id].lastSeenAt == now
    ensures id in rows ==> Touched(rows, id, now)[id].(lastSeenAt := rows[id].lastSeenAt) == rows[id]
  {
  }

  /** An upsert stores the row under its id, overwriting `scraped_at` as well, and leaves
      every other row alone. */
  lemma UpsertOverwrites(rows: map<string, Row>, row: Row)
    ensures Upserted(rows, row).Keys == rows.Keys + {row.listingId}
    ensures Upserted(rows, row)[row.listingId] == row
    ensures Upserted(rows, row)[row.listingId].scrapedAt == row.scrapedAt
    ensures forall k :: k in rows && k != row.listingId ==> Upserted(rows, row)[k] == rows[k]
  {
  }

  /** Upserting the same row twice is upserting it once. */
  lemma UpsertIdempotent(rows: map<string, Row>, row: Row)
    ensures Upserted(Upserted(rows, row), row) == Upserted(rows, row)
  {
  }

  // ---------------------------------------------------------------------------
  // Schema

  /** The columns of `listings` as `BASE_DDL` creates it, in order. */
  const BaseColumns: seq<string> :=
    ["listing_id", "listing_url", "title",
     "price_text_full", "price_amount", "price_currency", "price_period", "payment_terms",
     "region", "city", "district", "street", "postal_code", "building_no", "additional_no",
     "area", "rooms", "halls", "baths", "description", "features",
     "lat", "lon", "google_maps_url", "ld_json", "details_json", "scraped_at", "last_seen_at"]

  /** The columns `ensure_schema_upgrades` makes sure exist, in the order it adds them. */
  const WantedColumns: seq<string> :=
    ["price_text_full", "price_amount", "price_currency", "price_period", "payment_terms"]

  /** The wanted columns missing from `existing`, in the order of `wanted`. */
  function MissingColumns(existing: seq<string>, wanted: seq<string>): seq<string> {
    if wanted == [] then []
    else
      var missing := MissingColumns(existing, wanted[..|wanted| - 1]);
      if wanted[|wanted| - 1] in existing then missing else missing + [wanted[|wanted| - 1]]
  }

  /** One more wanted column adds itself to the missing ones exactly when it is missing. */
  lemma MissingColumnsSnoc(existing: seq<string>, wanted: seq<string>, i: nat)
    requires i < |wanted|
    ensures MissingColumns(existing, wanted[..i + 1])
      == if wanted[i] in existing then MissingColumns(existing, wanted[..i])
         else MissingColumns(existing, wanted[..i]) + [wanted[i]]
  {
    assert wanted[..i + 1][..i] == wanted[..i];
  }

  /** A column is missing exactly when it is wanted and the table lacks it. */
  lemma {:induction false} MissingColumnsMembers(existing: seq<string>, wanted: seq<string>)
    ensures forall c :: c in MissingColumns(existing, wanted) <==> c in wanted && c !in existing
  {
    if wanted != [] {
      var init, last := wanted[..|wanted| - 1], wanted[|wanted| - 1];
      MissingColumnsMembers(existing, init);
      assert wanted == init + [last];
      assert forall c :: c in wanted <==> c in init || c == last;
    }
  }

  /** The column list after adding the missing wanted columns, in order. */
  function Upgraded(existing: seq<string>, wanted: seq<string>): seq<string> {
    existing + MissingColumns(existing, wanted)
  }

  /** After the upgrade every wanted column exists, the old columns keep their places, and
      a column is added only when it was wanted and missing. */
  lemma UpgradeAddsMissing(existing: seq<string>, wanted: seq<string>)
    ensures forall c :: c in wanted ==> c in Upgraded(existing, wanted)
    ensures Upgraded(existing, wanted)[..|existing|] == existing
    ensures forall c :: c in Upgraded(existing, wanted) ==> c in existing || (c in wanted && c !in existing)
  {
    MissingColumnsMembers(existing, wanted);
  }

  /** A table that has every wanted column (a table the current DDL created) is left as
      it is. */
  lemma UpgradeOfComplete(existing: seq<string>, wanted: seq<string>)
    requires forall c :: c in wanted ==> c in existing
    ensures Upgraded(existing, wanted) == existing
  {
    NoneMissing(existing, wanted);
    assert existing + [] == existing;
  }

  /** Running the upgrade on an upgraded table adds nothing. */
  lemma UpgradeIdempotent(existing: seq<string>, wanted: seq<string>)
    ensures Upgraded(Upgraded(existing, wanted), wanted) == Upgraded(existing, wanted)
  {
    UpgradeAddsMissing(existing, wanted);
    UpgradeOfComplete(Upgraded(existing, wanted), wanted);
  }

  /** A table `BASE_DDL` just created already has every wanted column, so the upgrade
      leaves it as it is. */
  lemma BaseSchemaComplete()
    ensures Upgraded(BaseColumns, WantedColumns) == BaseColumns
  {
    forall c | c in WantedColumns ensures c in BaseColumns {
      var i :| 0 <= i < |WantedColumns| && WantedColumns[i] == c;
      assert BaseColumns[i + 3] == c;
    }
    UpgradeOfComplete(BaseColumns, WantedColumns);
  }

  /** When the table has every wanted column, none is missing. */
  lemma {:induction false} NoneMissing(existing: seq<string>, wanted: seq<string>)
    requires forall c :: c in wanted ==> c in existing
    ensures MissingColumns(existing, wanted) == []
  {
    if wanted != [] {
      var init := wanted[..|wanted| - 1];
      assert forall c :: c in init ==> c in wanted;
      assert wanted[|wanted| - 1] in wanted;
      NoneMissing(existing, init);
    }
  }

  // ---------------------------------------------------------------------------
  // The table

  class ListingStore {
    var rows: map<string, Row>
    var columns: seq<string>

    /** `db_connect` on a file that holds the table `table` (its columns and rows) or no
        table: `CREATE TABLE IF NOT EXISTS` creates an empty one with `BaseColumns`, then
        `ensure_schema_upgrades` adds the wanted columns an older table lacks. */
    constructor (table: Option<(seq<string>, map<string, Row>)>)
      ensures table.None? ==> columns == BaseColumns && rows == map[]
      ensures table.Some? ==> columns == Upgraded(table.value.0, WantedColumns)
      ensures table.Some? ==> rows == table.value.1
    {
      match table {
        case None =>
          columns := BaseColumns;
          rows := map[];
        case Some(t) =>
          columns := t.0;
          rows := t.1;
      }
      new;
      EnsureSchemaUpgrades();
      BaseSchemaComplete();
    }

    /** `db_has_listing`. */
    predicate Has(id: string)
      reads this
    {
      id in rows
    }

    /** `db_touch_seen`, stamping `now`. */
    method Touch(id: string, now: string)
      modifies this
      ensures rows == Touched(old(rows), id, now)
      ensures columns == old(columns)
    {
      if id in rows {
        rows := rows[id := rows[id].(lastSeenAt := now)];
      }
    }

    /** `db_upsert`. */
    method Upsert(row: Row)
      modifies this
      ensures rows == Upserted(old(rows), row)
      ensures columns == old(columns)
    {
      rows := rows[row.listingId := row];
    }

    /** `ensure_schema_upgrades`: adds the price columns older tables lack. */
    method EnsureSchemaUpgrades()
      modifies this
      ensures columns == Upgraded(old(columns), WantedColumns)
      ensures rows == old(rows)
    {
      AddMissingColumns(WantedColumns);
    }

    /** The loop of `ensure_schema_upgrades`: reads the column list once, then adds each
        wanted column that was missing from it. */
    method AddMissingColumns(wanted: seq<string>)
      modifies this
      ensures columns == Upgraded(old(columns), wanted)
      ensures rows == old(rows)
    {
      var existing := columns;
      for i := 0 to |wanted|
        invariant columns == existing + MissingColumns(existing, wanted[..i])
        invariant rows == old(rows)
      {
        var col := wanted[i];
        MissingColumnsSnoc(existing, wanted, i);
        if col !in existing {
          columns := columns + [col];
        }
      }
      assert wanted[..|wanted|] == wanted;
    }
  }
}
