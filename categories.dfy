/**
 * MYOB departments and level-1 categories as the sync job reads them: each is a
 * Hash from an id to a name (the name may be NULL), and the association rows of
 * `CategorisedValues` say which departments a category value belongs to.
 */
module Categories {
  import opened Wrappers
  import opened Diff

  /** A row of `Departments` or `CategoryValues`: column 0 (the id) and column 2
      (the name, None for NULL). */
  datatype NameRow = NameRow(id: int, name: Option<string>)

  /** An id-to-name Hash; a key can hold nil. */
  type NameMap = map<int, Option<string>>

  /** `@categories_current` / `@categories_old`: `{:dept => ..., :cat1 => ...}`. */
  datatype CategoryTables = CategoryTables(dept: NameMap, cat1: NameMap)

  /** A row of `CategorisedValues WHERE cat_id = 1`: column 0 (the department id)
      and column 2 (the category value id). */
  datatype AssocRow = AssocRow(deptId: int, catvalueId: int)

  // ---------------------------------------------------------------------------
  // fetch_categories / fetch_departments
  // ---------------------------------------------------------------------------

  /** The Hash the row loop fills: `hash[row[0]] = row[2]`, a later row winning. */
  function NameMapOf(rows: seq<NameRow>): NameMap
  {
    if rows == [] then map[]
    else NameMapOf(rows[..|rows| - 1])[rows[|rows| - 1].id := rows[|rows| - 1].name]
  }

  /** `fetch_categories`, given the rows of `CategoryValues`. */
  method FetchCategories(rows: seq<NameRow>) returns (hash: NameMap)
    ensures hash == NameMapOf(rows)
  {
    hash := map[];
    for i := 0 to |rows|
      invariant hash == NameMapOf(rows[..i])
    {
      assert rows[..i + 1][..i] == rows[..i];
      hash := hash[rows[i].id := rows[i].name];
    }
    assert rows[..|rows|] == rows;
  }

  /** `fetch_departments`, given the rows of `Departments`: the same Hash with the
      "<default>" department 0 removed. */
  method FetchDepartments(rows: seq<NameRow>) returns (hash: NameMap)
    ensures 0 !in hash
    ensures forall id :: id != 0 ==> Get(hash, id) == Get(NameMapOf(rows), id)
    ensures hash.Keys == NameMapOf(rows).Keys - {0}
    ensures hash == NameMapOf(rows) - {0}
  {
    hash := FetchCategories(rows);
    hash := hash - {0};
  }

  /** Every row's id is a key, and no other id is. */
  lemma {:induction false} NameMapKeys(rows: seq<NameRow>)
    ensures forall id :: id in NameMapOf(rows) <==> exists i :: 0 <= i < |rows| && rows[i].id == id
  {
    if rows != [] {
      var front := rows[..|rows| - 1];
      NameMapKeys(front);
      forall id ensures id in NameMapOf(rows) <==> exists i :: 0 <= i < |rows| && rows[i].id == id {
        if id in NameMapOf(front) {
          var i :| 0 <= i < |front| && front[i].id == id;
          assert rows[i] == front[i];
        }
        if exists i :: 0 <= i < |rows| && rows[i].id == id {
          var i :| 0 <= i < |rows| && rows[i].id == id;
          if i < |rows| - 1 {
            assert front[i] == rows[i];
          }
        }
      }
    }
  }

  /** The name filed under an id is the one from the last row with that id. */
  lemma {:induction false} NameMapLastWins(rows: seq<NameRow>, i: nat)
    requires i < |rows|
    requires forall k :: i < k < |rows| ==> rows[k].id != rows[i].id
    ensures rows[i].id in NameMapOf(rows) && NameMapOf(rows)[rows[i].id] == rows[i].name
  {
    if i < |rows| - 1 {
      var front := rows[..|rows| - 1];
      assert front[i] == rows[i];
      forall k | i < k < |front| ensures front[k].id != front[i].id {
        assert front[k] == rows[k];
      }
      NameMapLastWins(front, i);
    }
  }

  // ---------------------------------------------------------------------------
  // find_category_details_by_catvalue_id
  // ---------------------------------------------------------------------------

  /** The `dept_details` Hash: for each association row of the category value whose
      department is not 0, the department id mapped to its name (nil for a department
      `dept` does not know, which still makes a key). */
  function DeptDetails(catvalueId: int, dept: NameMap, rows: seq<AssocRow>): (r: NameMap)
    ensures forall d :: d in r <==>
      d != 0 && exists i :: 0 <= i < |rows| && rows[i].catvalueId == catvalueId && rows[i].deptId == d
    ensures forall d :: d in r ==> r[d] == Get(dept, d)
  {
    if rows == [] then map[]
    else
      var front := rows[..|rows| - 1];
      var row := rows[|rows| - 1];
      var r0 := DeptDetails(catvalueId, dept, front);
      assert forall i :: 0 <= i < |front| ==> front[i] == rows[i];
      if row.catvalueId == catvalueId && row.deptId != 0 then r0[row.deptId := Get(dept, row.deptId)] else r0
  }

  /** The Hash `find_category_details_by_catvalue_id` returns. */
  datatype CategoryDetails = CategoryDetails(subCat: int, catName: Option<string>, deptDetails: NameMap)

  /** `find_category_details_by_catvalue_id(catvalue_id, categories, categorised_values)`;
      the name comes from the `:cat1` table. */
  function FindCategoryDetails(catvalueId: int, categories: CategoryTables, rows: seq<AssocRow>): (r: CategoryDetails)
    ensures r.subCat == catvalueId
    ensures r.catName == Get(categories.cat1, catvalueId)
    ensures r.deptDetails.Keys == DeptIdsOf(catvalueId, rows)
    ensures forall d :: d in r.deptDetails ==> r.deptDetails[d] == Get(categories.dept, d)
  {
    DeptDetailsKeys(catvalueId, categories.dept, rows);
    CategoryDetails(catvalueId, Get(categories.cat1, catvalueId), DeptDetails(catvalueId, categories.dept, rows))
  }

  /** The non-zero department ids associated with a category value. */
  function DeptIdsOf(catvalueId: int, rows: seq<AssocRow>): set<int>
  {
    set i | 0 <= i < |rows| && rows[i].catvalueId == catvalueId && rows[i].deptId != 0 :: rows[i].deptId
  }

  /** The departments of a category are exactly its non-zero association rows. */
  lemma DeptDetailsKeys(catvalueId: int, dept: NameMap, rows: seq<AssocRow>)
    ensures DeptDetails(catvalueId, dept, rows).Keys == DeptIdsOf(catvalueId, rows)
    ensures DeptDetails(catvalueId, dept, rows) == map[] <==> DeptIdsOf(catvalueId, rows) == {}
  {
    var r := DeptDetails(catvalueId, dept, rows);
    forall d | d in DeptIdsOf(catvalueId, rows) ensures d in r {
      var i :| 0 <= i < |rows| && rows[i].catvalueId == catvalueId && rows[i].deptId != 0 && rows[i].deptId == d;
    }
  }
}
