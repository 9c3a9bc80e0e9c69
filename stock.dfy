/**
 * Stock records as the sync job holds them, and the fingerprint it keeps of each.
 *
 * A stock record is a Ruby Hash from a column name of the `Stock` table to the
 * column's value. The model keeps the text each value prints as (`to_s`), and
 * leaves out a column whose value is nil: Ruby reads a missing key and a stored
 * nil alike, and `nil.to_s` is "".
 */
module Stock {
  import opened Wrappers
  import opened RubyText
  import opened Diff

  type Record = map<string, string>

  /** `record[field].to_s`. */
  function FieldText(rec: Record, field: string): string
  {
    if field in rec then rec[field] else ""
  }

  /** `record[field]` for an integer column: nil when absent. */
  function IntField(rec: Record, field: string): Option<int>
  {
    if field in rec then Some(ToI(rec[field])) else None
  }

  // ---------------------------------------------------------------------------
  // fetch_stock_records: rows to records
  // ---------------------------------------------------------------------------

  /** `hash[name] = value`, where a nil value reads as a missing key. */
  function Put(rec: Record, name: string, value: Option<string>): (r: Record)
    ensures FieldText(r, name) == if value.Some? then value.value else ""
    ensures forall f :: f != name ==> FieldText(r, f) == FieldText(rec, f)
  {
    if value.Some? then rec[name := value.value] else rec - {name}
  }

  /** The record the inner loop builds from one row: every column name paired with
      the row's value in that position, a later duplicate name winning. */
  function RowRecord(names: seq<string>, row: seq<Option<string>>): Record
    requires |row| == |names|
  {
    if names == [] then map[]
    else Put(RowRecord(names[..|names| - 1], row[..|row| - 1]), names[|names| - 1], row[|row| - 1])
  }

  /** The key a record is filed under: `record["stock_id"].to_i`. */
  function StockId(rec: Record): int
  {
    ToI(FieldText(rec, "stock_id"))
  }

  /** The Hash the row loop fills, a later row with the same id replacing an earlier one. */
  function StockHash(names: seq<string>, rows: seq<seq<Option<string>>>): map<int, Record>
    requires forall i :: 0 <= i < |rows| ==> |rows[i]| == |names|
  {
    if rows == [] then map[]
    else
      var rec := RowRecord(names, rows[|rows| - 1]);
      StockHash(names, rows[..|rows| - 1])[StockId(rec) := rec]
  }

  /** The three money columns, read again through `to_f` so that they print as floats;
      `toF` gives the text of `x.to_f` for the text of `x` (an absent column reads as
      "", and `nil.to_f` is `"".to_f`). */
  function Converted(rec: Record, toF: string -> string): Record
  {
    rec["cost" := toF(FieldText(rec, "cost"))]["sell" := toF(FieldText(rec, "sell"))]["bonus" := toF(FieldText(rec, "bonus"))]
  }

  /** The Hash `fetch_stock_records` returns. */
  function StockRecords(names: seq<string>, rows: seq<seq<Option<string>>>, toF: string -> string): map<int, Record>
    requires forall i :: 0 <= i < |rows| ==> |rows[i]| == |names|
  {
    var h := StockHash(names, rows);
    map id | id in h :: Converted(h[id], toF)
  }

  /**
   * `fetch_stock_records`, given the column names of the `Stock` table and the
   * rows of `SELECT * FROM Stock WHERE stock_id > 0` (a NULL column is None).
   * The query and the `InterfaceError` rescue are not part of this model.
   */
  method FetchStockRecords(names: seq<string>, rows: seq<seq<Option<string>>>, toF: string -> string)
    returns (stock: map<int, Record>)
    requires forall i :: 0 <= i < |rows| ==> |rows[i]| == |names|
    ensures stock == StockRecords(names, rows, toF)
  {
    var hash: map<int, Record> := map[];
    for i := 0 to |rows|
      invariant hash == StockHash(names, rows[..i])
    {
      var item := RowToRecord(names, rows[i]);
      assert rows[..i + 1][..i] == rows[..i];
      hash := hash[StockId(item) := item];
    }
    assert rows[..|rows|] == rows;
    stock := ConvertMoney(hash, toF);
  }

  /** The inner loop of `fetch_stock_records`: the row's values stored under the
      column names, in column order. */
  method RowToRecord(names: seq<string>, row: seq<Option<string>>) returns (item: Record)
    requires |row| == |names|
    ensures item == RowRecord(names, row)
  {
    item := map[];
    for j := 0 to |names|
      invariant item == RowRecord(names[..j], row[..j])
    {
      assert names[..j + 1][..j] == names[..j] && row[..j + 1][..j] == row[..j];
      item := Put(item, names[j], row[j]);
    }
    assert names[..|names|] == names && row[..|names|] == row;
  }

  /** The second loop of `fetch_stock_records`: every record's money columns through `to_f`. */
  method ConvertMoney(hash: map<int, Record>, toF: string -> string) returns (stock: map<int, Record>)
    ensures stock == map id | id in hash :: Converted(hash[id], toF)
  {
    stock := hash;
    var todo := hash.Keys;
    ghost var done: set<int> := {};
    ConvertedOnNone(hash, toF);
    while todo != {}
      invariant done + todo == hash.Keys && done !! todo
      invariant stock == ConvertedOn(hash, done, toF)
      decreases |todo|
    {
      HasMember(todo);
      var id :| id in todo;
      ConvertedOnStep(hash, done, id, toF);
      stock := stock[id := Converted(stock[id], toF)];
      MoveKey(done, todo, id);
      todo := todo - {id};
      done := done + {id};
    }
    ConvertedOnAll(hash, toF);
  }

  /** The Hash halfway through the second loop: the records under `done` converted. */
  function ConvertedOn(hash: map<int, Record>, done: set<int>, toF: string -> string): map<int, Record>
  {
    map id | id in hash :: if id in done then Converted(hash[id], toF) else hash[id]
  }

  lemma ConvertedOnNone(hash: map<int, Record>, toF: string -> string)
    ensures ConvertedOn(hash, {}, toF) == hash
  {
    SameMaps(ConvertedOn(hash, {}, toF), hash);
  }

  lemma ConvertedOnStep(hash: map<int, Record>, done: set<int>, id: int, toF: string -> string)
    requires id in hash && id !in done
    ensures id in ConvertedOn(hash, done, toF) && ConvertedOn(hash, done, toF)[id] == hash[id]
    ensures ConvertedOn(hash, done + {id}, toF) == ConvertedOn(hash, done, toF)[id := Converted(hash[id], toF)]
  {
    SameMaps(ConvertedOn(hash, done + {id}, toF), ConvertedOn(hash, done, toF)[id := Converted(hash[id], toF)]);
  }

  lemma ConvertedOnAll(hash: map<int, Record>, toF: string -> string)
    ensures ConvertedOn(hash, hash.Keys, toF) == map id | id in hash :: Converted(hash[id], toF)
  {
    SameMaps(ConvertedOn(hash, hash.Keys, toF), map id | id in hash :: Converted(hash[id], toF));
  }

  /** Two maps with the same keys and the same value at every key are equal. */
  lemma SameMaps<V>(a: map<int, V>, b: map<int, V>)
    requires a.Keys == b.Keys && forall k :: k in a ==> a[k] == b[k]
    ensures a == b
  {
    assert forall k :: k in a ==> k in b && a[k] == b[k];
    assert forall k :: k in b ==> k in a;
  }

  /** Every row is filed under its own id, and no other key appears. */
  lemma {:induction false} StockHashKeys(names: seq<string>, rows: seq<seq<Option<string>>>)
    requires forall i :: 0 <= i < |rows| ==> |rows[i]| == |names|
    ensures forall id :: id in StockHash(names, rows) <==>
      exists i :: 0 <= i < |rows| && StockId(RowRecord(names, rows[i])) == id
  {
    if rows != [] {
      var front := rows[..|rows| - 1];
      StockHashKeys(names, front);
      forall id ensures id in StockHash(names, rows) <==>
        exists i :: 0 <= i < |rows| && StockId(RowRecord(names, rows[i])) == id
      {
        if id in StockHash(names, front) {
          var i :| 0 <= i < |front| && StockId(RowRecord(names, front[i])) == id;
          assert rows[i] == front[i];
        }
        if exists i :: 0 <= i < |rows| && StockId(RowRecord(names, rows[i])) == id {
          var i :| 0 <= i < |rows| && StockId(RowRecord(names, rows[i])) == id;
          if i < |rows| - 1 {
            assert front[i] == rows[i];
          }
        }
      }
    }
  }

  /** The record filed under an id is the one built from the last row with that id. */
  lemma {:induction false} LastRowWins(names: seq<string>, rows: seq<seq<Option<string>>>, i: nat)
    requires forall k :: 0 <= k < |rows| ==> |rows[k]| == |names|
    requires i < |rows|
    requires forall k :: i < k < |rows| ==> StockId(RowRecord(names, rows[k])) != StockId(RowRecord(names, rows[i]))
    ensures var id := StockId(RowRecord(names, rows[i]));
      id in StockHash(names, rows) && StockHash(names, rows)[id] == RowRecord(names, rows[i])
  {
    if i < |rows| - 1 {
      var front := rows[..|rows| - 1];
      assert front[i] == rows[i];
      forall k | i < k < |front| ensures StockId(RowRecord(names, front[k])) != StockId(RowRecord(names, front[i])) {
        assert front[k] == rows[k];
      }
      LastRowWins(names, front, i);
    }
  }

  /** After the fetch the money columns always hold the text of a float. */
  lemma MoneyColumnsConverted(names: seq<string>, rows: seq<seq<Option<string>>>, toF: string -> string, id: int)
    requires forall i :: 0 <= i < |rows| ==> |rows[i]| == |names|
    requires id in StockRecords(names, rows, toF)
    ensures var rec := StockRecords(names, rows, toF)[id]; var raw := StockHash(names, rows)[id];
      && rec["cost"] == toF(FieldText(raw, "cost"))
      && rec["sell"] == toF(FieldText(raw, "sell"))
      && rec["bonus"] == toF(FieldText(raw, "bonus"))
      && forall f :: f !in {"cost", "sell", "bonus"} ==> FieldText(rec, f) == FieldText(raw, f)
  {
  }

  /** `quantity_field`: `record["quantity"].to_i`. */
  function QuantityField(rec: Record): int
  {
    ToI(FieldText(rec, "quantity"))
  }

  /** A quantity stored from an integer reads back as that integer, and a missing one as 0. */
  lemma QuantityOfIntText(rec: Record, q: int)
    ensures "quantity" !in rec ==> QuantityField(rec) == 0
    ensures FieldText(rec, "quantity") == IntToS(q) ==> QuantityField(rec) == q
  {
    if FieldText(rec, "quantity") == IntToS(q) {
      ToIOfIntToS(q);
    }
  }

  // ---------------------------------------------------------------------------
  // changeable_fields and get_md5_hashes
  // ---------------------------------------------------------------------------

  /** The 25 columns whose change the job must notice, in the order they are joined. */
  const CHANGEABLE_FIELDS: seq<string> := [
    "cost", "freight", "order_threshold", "quantity", "inactive",
    "custom1", "custom2", "weighted", "tare_weight", "picture_file_name",
    "order_quantity", "static_quantity", "cat1", "longdesc",
    "description", "package", "supplier_id", "salesorder_qty",
    "layby_qty", "sell", "print_components", "bonus", "tax_components",
    "allow_renaming", "dept_id"]

  /** The texts of the fields `fs`, joined in order with no separator. */
  function JoinFields(rec: Record, fs: seq<string>): string
  {
    if fs == [] then "" else JoinFields(rec, fs[..|fs| - 1]) + FieldText(rec, fs[|fs| - 1])
  }

  /** `changeable_fields(record)`: the string whose MD5 digest fingerprints the record. */
  method ChangeableFields(rec: Record) returns (data: string)
    ensures data == JoinFields(rec, CHANGEABLE_FIELDS)
  {
    data := "";
    for i := 0 to |CHANGEABLE_FIELDS|
      invariant data == JoinFields(rec, CHANGEABLE_FIELDS[..i])
    {
      assert CHANGEABLE_FIELDS[..i + 1][..i] == CHANGEABLE_FIELDS[..i];
      data := data + FieldText(rec, CHANGEABLE_FIELDS[i]);
    }
    assert CHANGEABLE_FIELDS[..|CHANGEABLE_FIELDS|] == CHANGEABLE_FIELDS;
  }

  /** The fingerprint of one record; `md5` stands for `Digest::MD5.hexdigest`. */
  function Fingerprint(rec: Record, md5: string -> string): string
  {
    md5(JoinFields(rec, CHANGEABLE_FIELDS))
  }

  /** The fingerprint of every record. */
  function Fingerprints(records: map<int, Record>, md5: string -> string): map<int, string>
  {
    map id | id in records :: Fingerprint(records[id], md5)
  }

  /** The fingerprints of the records under `done`. */
  function FingerprintsOn(records: map<int, Record>, done: set<int>, md5: string -> string): map<int, string>
  {
    map id | id in records && id in done :: Fingerprint(records[id], md5)
  }

  /** `get_md5_hashes(stock_records)`. */
  method GetMd5Hashes(records: map<int, Record>, md5: string -> string) returns (hashes: map<int, string>)
    ensures hashes.Keys == records.Keys
    ensures hashes == Fingerprints(records, md5)
  {
    hashes := map[];
    var todo := records.Keys;
    ghost var done: set<int> := {};
    while todo != {}
      invariant done + todo == records.Keys && done !! todo
      invariant hashes == FingerprintsOn(records, done, md5)
      decreases |todo|
    {
      HasMember(todo);
      var id :| id in todo;
      var data := ChangeableFields(records[id]);
      FingerprintsOnStep(records, done, id, md5);
      hashes := hashes[id := md5(data)];
      MoveKey(done, todo, id);
      todo := todo - {id};
      done := done + {id};
    }
    SameMaps(hashes, Fingerprints(records, md5));
  }

  lemma FingerprintsOnStep(records: map<int, Record>, done: set<int>, id: int, md5: string -> string)
    requires id in records
    ensures FingerprintsOn(records, done + {id}, md5) == FingerprintsOn(records, done, md5)[id := Fingerprint(records[id], md5)]
  {
    SameMaps(FingerprintsOn(records, done + {id}, md5), FingerprintsOn(records, done, md5)[id := Fingerprint(records[id], md5)]);
  }

  /** Joining two runs of fields joins their texts. */
  lemma {:induction false} JoinAppend(rec: Record, a: seq<string>, b: seq<string>)
    ensures JoinFields(rec, a + b) == JoinFields(rec, a) + JoinFields(rec, b)
    decreases |b|
  {
    if b == [] {
      assert a + b == a;
    } else {
      var b' := b[..|b| - 1];
      assert (a + b)[..|a + b| - 1] == a + b';
      assert (a + b)[|a + b| - 1] == b[|b| - 1];
      JoinAppend(rec, a, b');
    }
  }

  /** Records that agree on the fields joined give the same text. */
  lemma {:induction false} JoinAgree(r1: Record, r2: Record, fs: seq<string>)
    requires forall i :: 0 <= i < |fs| ==> FieldText(r1, fs[i]) == FieldText(r2, fs[i])
    ensures JoinFields(r1, fs) == JoinFields(r2, fs)
  {
    if fs != [] {
      JoinAgree(r1, r2, fs[..|fs| - 1]);
    }
  }

  /** Records that agree on the 25 changeable fields get the same fingerprint, so
      a change to any other column never reaches the web store. */
  lemma SameFieldsSameFingerprint(records: map<int, Record>, prevRecords: map<int, Record>, md5: string -> string, id: int)
    requires id in records && id in prevRecords
    requires forall f :: f in CHANGEABLE_FIELDS ==> FieldText(records[id], f) == FieldText(prevRecords[id], f)
    ensures id !in Classification(Lift(Fingerprints(records, md5)), Lift(Fingerprints(prevRecords, md5)))
  {
    JoinAgree(records[id], prevRecords[id], CHANGEABLE_FIELDS);
    ClassifiedAt(Lift(Fingerprints(records, md5)), Lift(Fingerprints(prevRecords, md5)), id);
  }

  /** The text joined around one field is the text before it, its own text and the
      text after it. */
  lemma JoinAround(rec: Record, pre: seq<string>, f: string, post: seq<string>)
    ensures JoinFields(rec, pre + [f] + post) == JoinFields(rec, pre) + FieldText(rec, f) + JoinFields(rec, post)
  {
    JoinAppend(rec, pre + [f], post);
    assert (pre + [f])[..|pre|] == pre;
  }

  /** Different middles between the same ends give different strings. */
  lemma MiddleDiffers(p: string, x: string, y: string, s: string)
    requires x != y
    ensures p + x + s != p + y + s
  {
    if |x| == |y| {
      var k :| 0 <= k < |x| && x[k] != y[k];
      assert (p + x + s)[|p| + k] == x[k];
      assert (p + y + s)[|p| + k] == y[k];
    } else {
      assert |p + x + s| != |p + y + s|;
    }
  }

  /** A change confined to one field, which occurs once among those joined,
      always changes the joined text. */
  lemma OneFieldChange(r1: Record, r2: Record, pre: seq<string>, f: string, post: seq<string>)
    requires f !in pre && f !in post
    requires forall g :: g != f ==> FieldText(r1, g) == FieldText(r2, g)
    requires FieldText(r1, f) != FieldText(r2, f)
    ensures JoinFields(r1, pre + [f] + post) != JoinFields(r2, pre + [f] + post)
  {
    JoinAround(r1, pre, f, post);
    JoinAround(r2, pre, f, post);
    JoinAgree(r1, r2, pre);
    JoinAgree(r1, r2, post);
    MiddleDiffers(JoinFields(r1, pre), FieldText(r1, f), FieldText(r2, f), JoinFields(r1, post));
  }

  /** A change to any one of the 25 changeable fields, with the other 24 unchanged,
      changes the text whose digest fingerprints the record. */
  lemma ChangeableFieldChangeSeen(r1: Record, r2: Record, i: nat)
    requires i < |CHANGEABLE_FIELDS|
    requires forall j :: 0 <= j < |CHANGEABLE_FIELDS| && j != i ==>
      FieldText(r1, CHANGEABLE_FIELDS[j]) == FieldText(r2, CHANGEABLE_FIELDS[j])
    requires FieldText(r1, CHANGEABLE_FIELDS[i]) != FieldText(r2, CHANGEABLE_FIELDS[i])
    ensures JoinFields(r1, CHANGEABLE_FIELDS) != JoinFields(r2, CHANGEABLE_FIELDS)
  {
    var pre, f, post := CHANGEABLE_FIELDS[..i], CHANGEABLE_FIELDS[i], CHANGEABLE_FIELDS[i + 1..];
    assert CHANGEABLE_FIELDS == pre + [f] + post;
    forall j | 0 <= j < |pre| ensures FieldText(r1, pre[j]) == FieldText(r2, pre[j]) {
      assert pre[j] == CHANGEABLE_FIELDS[j];
    }
    forall j | 0 <= j < |post| ensures FieldText(r1, post[j]) == FieldText(r2, post[j]) {
      assert post[j] == CHANGEABLE_FIELDS[i + 1 + j];
    }
    JoinAround(r1, pre, f, post);
    JoinAround(r2, pre, f, post);
    JoinAgree(r1, r2, pre);
    JoinAgree(r1, r2, post);
    MiddleDiffers(JoinFields(r1, pre), FieldText(r1, f), FieldText(r2, f), JoinFields(r1, post));
  }

  /** With a digest that tells its inputs apart, a record edited in exactly one of
      the 25 changeable fields is reported as updated. */
  lemma ChangeableFieldEditUpdates(records: map<int, Record>, prevRecords: map<int, Record>, md5: string -> string,
                                   id: int, i: nat)
    requires forall x, y :: md5(x) == md5(y) ==> x == y
    requires id in records && id in prevRecords && i < |CHANGEABLE_FIELDS|
    requires forall j :: 0 <= j < |CHANGEABLE_FIELDS| && j != i ==>
      FieldText(records[id], CHANGEABLE_FIELDS[j]) == FieldText(prevRecords[id], CHANGEABLE_FIELDS[j])
    requires FieldText(records[id], CHANGEABLE_FIELDS[i]) != FieldText(prevRecords[id], CHANGEABLE_FIELDS[i])
    ensures var changes := Classification(Lift(Fingerprints(records, md5)), Lift(Fingerprints(prevRecords, md5)));
      id in changes && changes[id] == Update
  {
    ChangeableFieldChangeSeen(records[id], prevRecords[id], i);
    ClassifiedAt(Lift(Fingerprints(records, md5)), Lift(Fingerprints(prevRecords, md5)), id);
  }

  /** Two fields join to their two texts. */
  lemma JoinTwo(rec: Record, f: string, g: string)
    ensures JoinFields(rec, [f, g]) == FieldText(rec, f) + FieldText(rec, g)
  {
    assert [f, g][..1] == [f] && [f][..0] == [];
    assert JoinFields(rec, [f]) == JoinFields(rec, []) + FieldText(rec, f);
    assert JoinFields(rec, [f]) == FieldText(rec, f);
  }

  /** The columns joined after `cost` and `freight`. */
  lemma ChangeableFieldsStart()
    ensures CHANGEABLE_FIELDS == ["cost", "freight"] + CHANGEABLE_FIELDS[2..]
    ensures "cost" !in CHANGEABLE_FIELDS[2..] && "freight" !in CHANGEABLE_FIELDS[2..]
  {
    var rest := CHANGEABLE_FIELDS[2..];
    forall i | 0 <= i < |rest| ensures rest[i] != "cost" && rest[i] != "freight" {
      assert rest[i] == CHANGEABLE_FIELDS[i + 2];
    }
  }

  /** With no separator between fields, text that moves from one field into the
      next leaves the fingerprint input unchanged: a cost of 1 with a freight of 23
      and a cost of 12 with a freight of 3 give the same input. */
  lemma AdjacentFieldsBlur(rec: Record)
    ensures var r1 := rec["cost" := "1"]["freight" := "23"];
            var r2 := rec["cost" := "12"]["freight" := "3"];
            r1 != r2 && JoinFields(r1, CHANGEABLE_FIELDS) == JoinFields(r2, CHANGEABLE_FIELDS)
  {
    var r1 := rec["cost" := "1"]["freight" := "23"];
    var r2 := rec["cost" := "12"]["freight" := "3"];
    assert r1["cost"] != r2["cost"];
    ChangeableFieldsStart();
    var rest := CHANGEABLE_FIELDS[2..];
    forall i | 0 <= i < |rest| ensures FieldText(r1, rest[i]) == FieldText(r2, rest[i]) {
      assert rest[i] in rest;
    }
    JoinAppend(r1, ["cost", "freight"], rest);
    JoinAppend(r2, ["cost", "freight"], rest);
    JoinAgree(r1, r2, rest);
    JoinTwo(r1, "cost", "freight");
    JoinTwo(r2, "cost", "freight");
    assert "cost" != "freight";
    assert FieldText(r1, "cost") + FieldText(r1, "freight") == "1" + "23";
    assert FieldText(r2, "cost") + FieldText(r2, "freight") == "12" + "3";
  }
}
