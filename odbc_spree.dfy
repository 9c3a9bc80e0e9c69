/**
 * The sync job `Spree::ODBC::RM`: it holds the current and the saved snapshot of
 * the MYOB stock and category tables, and for every change the diff reports it
 * decides what to ask of the Spree web store, keeping a tally of what it did.
 *
 * The web store is not modelled as a system of its own: every request the job
 * sends is appended to `requests`, and what the store answers (the products it
 * lists, whether a save goes through, the permalink of a new product, ...) comes in
 * as a `Remote` value for the call at hand.
 */
module OdbcSpree {
  import opened Wrappers
  import opened RubyText
  import opened Diff
  import opened Webstore
  import opened Stock
  import opened Categories
  import opened Catalog

  // ---------------------------------------------------------------------------
  // initialize: configuration
  // ---------------------------------------------------------------------------

  /** The configuration file read for an environment. */
  function ConfigPath(env: string): string
  {
    if env == "test" || env == "config" then "spec/config_test.yml" else "config/config_" + env + ".yml"
  }

  /** "test" and "config" share the test configuration under spec/; every other
      environment reads a file of its own under config/, so no two deployments share
      one. */
  lemma ConfigPathPerEnvironment(e1: string, e2: string)
    ensures ConfigPath("test") == ConfigPath("config") == "spec/config_test.yml"
    ensures e1 != "test" && e1 != "config" ==> ConfigPath(e1) != ConfigPath("test")
    ensures e1 != "test" && e1 != "config" && e2 != "test" && e2 != "config" ==>
      (ConfigPath(e1) == ConfigPath(e2) <==> e1 == e2)
  {
    var stem := "config/config_";
    if e1 != "test" && e1 != "config" {
      assert ConfigPath(e1)[0] == 'c' != 's' == ConfigPath("test")[0];
    }
    if e1 != "test" && e1 != "config" && e2 != "test" && e2 != "config" && ConfigPath(e1) == ConfigPath(e2) {
      assert |e1| == |e2|;
      assert ConfigPath(e1)[|stem|..|stem| + |e1|] == e1;
      assert ConfigPath(e2)[|stem|..|stem| + |e2|] == e2;
    }
  }

  /** The settings a configuration file holds, one instance variable each. */
  datatype Config = Config(spreeBaseurl: string, yamlRecordsFilename: string, md5RecordsFilename: string,
                           categoriesFilename: string, onlyImages: bool)

  /** `@spree_baseurl += "/" unless @spree_baseurl.end_with? "/"`. */
  function NormalizeBaseUrl(url: string): (r: string)
    ensures EndsWith(r, "/")
    ensures |url| <= |r| <= |url| + 1 && r[..|url|] == url
    ensures EndsWith(url, "/") ==> r == url
  {
    if EndsWith(url, "/") then url else url + "/"
  }

  /** Normalising twice changes nothing more. */
  lemma NormalizeBaseUrlIdempotent(url: string)
    ensures NormalizeBaseUrl(NormalizeBaseUrl(url)) == NormalizeBaseUrl(url)
  {
  }

  /** `filename.gsub!(".yml", "_#{env}.yml")`. */
  function EnvFilename(name: string, env: string): string
  {
    Gsub(name, ".yml", "_" + env + ".yml")
  }

  /** A file name ending in its only ".yml" gets the environment before the extension. */
  lemma EnvFilenameOfStem(stem: string, env: string)
    requires forall i :: 0 <= i < |stem| ==> !OccursAt(stem + ".yml", ".yml", i)
    ensures EnvFilename(stem + ".yml", env) == stem + "_" + env + ".yml"
  {
    GsubAtEnd(stem, ".yml", "_" + env + ".yml");
  }

  /** A file name without ".yml" is left as it is. */
  lemma EnvFilenameWithoutYml(name: string, env: string)
    requires !Occurs(name, ".yml")
    ensures EnvFilename(name, env) == name
  {
    GsubWithoutMatch(name, ".yml", "_" + env + ".yml");
  }

  /** `@valid_products`: the proofed barcodes, or `:all` when the list cannot be loaded. */
  datatype ValidProducts = All | Listed(barcodes: seq<string>)

  /** `YAML.load_file(...).map{|s| s.strip.upcase } rescue :all`; None stands for a
      load that raises. */
  function LoadValidProducts(file: Option<seq<string>>): (r: ValidProducts)
    ensures r.All? <==> file.None?
    ensures file.Some? ==> (|r.barcodes| == |file.value|
      && forall i :: 0 <= i < |file.value| ==> r.barcodes[i] == Upcase(Strip(file.value[i])))
  {
    match file
    case None => All
    case Some(list) => Listed(seq(|list|, i requires 0 <= i < |list| => Upcase(Strip(list[i]))))
  }

  /** `@valid_products == :all or @valid_products.include?(barcode.strip.upcase)`. */
  predicate IsListed(v: ValidProducts, barcode: string)
  {
    v.All? || Upcase(Strip(barcode)) in v.barcodes
  }

  /** `load_file_with_defaults(filename, default)`; None stands for a missing file. */
  function LoadWithDefault<T>(file: Option<T>, default: T): T
  {
    if file.Some? then file.value else default
  }

  // ---------------------------------------------------------------------------
  // action_count
  // ---------------------------------------------------------------------------

  /** The keys of `action_count`: `:new`, `:update`, `:delete`, `:image`, `:ignore`,
      `:ignore_image`, `:ignore_valid`, `:error`. */
  datatype Counter = NewCount | UpdateCount | DeleteCount | ImageCount
                   | IgnoreCount | IgnoreImageCount | IgnoreValidCount | ErrorCount

  /** Every counter is present (`+= 1` on a missing key would raise). */
  predicate HasAllCounters(m: map<Counter, int>)
  {
    forall c: Counter :: c in m
  }

  /** The tally after adding one to the counter of each entry of `cs`, in order. */
  function Bump(m: map<Counter, int>, cs: seq<Counter>): (r: map<Counter, int>)
    requires HasAllCounters(m)
    ensures HasAllCounters(r)
  {
    if cs == [] then m
    else
      var front := Bump(m, cs[..|cs| - 1]);
      front[cs[|cs| - 1] := front[cs[|cs| - 1]] + 1]
  }

  /** Each counter grows by the number of times it occurs. */
  lemma {:induction false} BumpCounts(m: map<Counter, int>, cs: seq<Counter>)
    requires HasAllCounters(m)
    ensures forall c :: Bump(m, cs)[c] == m[c] + multiset(cs)[c]
  {
    if cs != [] {
      var front := cs[..|cs| - 1];
      BumpCounts(m, front);
      assert cs == front + [cs[|cs| - 1]];
      assert multiset(cs) == multiset(front) + multiset{cs[|cs| - 1]};
    }
  }

  /** Tallying one run and then another is tallying both. */
  lemma {:induction false} BumpAppend(m: map<Counter, int>, xs: seq<Counter>, ys: seq<Counter>)
    requires HasAllCounters(m)
    ensures Bump(Bump(m, xs), ys) == Bump(m, xs + ys)
    decreases |ys|
  {
    if ys == [] {
      assert xs + ys == xs;
    } else {
      BumpAppend(m, xs, ys[..|ys| - 1]);
      assert (xs + ys)[..|xs + ys| - 1] == xs + ys[..|ys| - 1];
      assert (xs + ys)[|xs + ys| - 1] == ys[|ys| - 1];
    }
  }

  /** The `action_count` Hash the driver passes to every `process_stock_change`. */
  class ActionCount {
    var counts: map<Counter, int>

    /** `{:new => 0, :update => 0, ..., :error => 0}`. */
    constructor()
      ensures HasAllCounters(counts) && forall c :: counts[c] == 0
    {
      var zero := map[NewCount := 0, UpdateCount := 0, DeleteCount := 0, ImageCount := 0,
                      IgnoreCount := 0, IgnoreImageCount := 0, IgnoreValidCount := 0, ErrorCount := 0];
      forall c: Counter ensures c in zero && zero[c] == 0 {
        match c
        case NewCount =>
        case UpdateCount =>
        case DeleteCount =>
        case ImageCount =>
        case IgnoreCount =>
        case IgnoreImageCount =>
        case IgnoreValidCount =>
        case ErrorCount =>
      }
      counts := zero;
    }

    /** `action_count[c] += 1`. */
    method Increment(c: Counter)
      requires HasAllCounters(counts)
      modifies this
      ensures counts == Bump(old(counts), [c])
    {
      assert [c][..0] == [];
      counts := counts[c := counts[c] + 1];
    }
  }

  // ---------------------------------------------------------------------------
  // errors_for_email
  // ---------------------------------------------------------------------------

  /** The notices the category handlers can file (the prose of each is not modelled). */
  datatype Notice = DepartmentUpdated | DepartmentDeleted | CategoryUpdated | CategoryDeleted

  /** `{:message => ..., :previous_state => ..., :new_state => ...}`. */
  datatype ErrorEntry = ErrorEntry(notice: Notice, previousState: Option<string>, newState: Option<string>)

  /** The `errors_for_email` Hash the category handlers fill, keyed by id. */
  class ErrorReport {
    var entries: map<int, ErrorEntry>

    constructor()
      ensures entries == map[]
    {
      entries := map[];
    }
  }

  // ---------------------------------------------------------------------------
  // The web store: requests sent and answers received
  // ---------------------------------------------------------------------------

  /** A write the job sends to the web store. */
  datatype Request =
    | NewProduct(data: ProductData)                                       // ProductSync.new(data).save
    | SaveProduct(productId: int, data: ProductData, deletedAt: Option<int>)   // merged attributes, then save
    | SoftDeleteProduct(productId: int, hiddenAt: int)                   // deleted_at = Time.now, then save
    | ImageUpload(url: string, file: string)                              // Multipart post of an image
    | NewTaxonomy(name: string, myobDeptId: int)                          // TaxonomySync.new(data).save
    | NewTaxon(name: string, taxonomyId: Option<int>, parentId: Option<int>, myobCatId: int)

  /** What the store and the other outside sources answer during one call. */
  datatype Remote = Remote(
    products: seq<RemoteProduct>,          // ProductSync.find(:all)
    imagePath: Option<string>,             // find_image(barcode)
    stockCategory: Option<Option<int>>,    // find_category_by_stockid: no row, or the row's sub_cat
    created: Option<string>,               // a new product's save: its permalink, or None when refused
    uploaded: bool,                        // upload_image succeeds
    saveRaises: bool,                      // the save of an update or a delete raises
    now: int)                              // Time.now

  /** `"#{@spree_baseurl}admin/products/#{product_id}/images"`. */
  function ImageUrl(baseurl: string, permalink: string): string
  {
    baseurl + "admin/products/" + permalink + "/images"
  }

  // ---------------------------------------------------------------------------
  // The decisions of process_stock_change, as functions of the snapshots
  // ---------------------------------------------------------------------------

  /** The part of the job's state its decisions read. */
  datatype SyncState = SyncState(
    stockCurrent: map<int, Record>,
    stockOld: map<int, Record>,
    categoriesCurrent: CategoryTables,
    categoriesOld: CategoryTables,
    categorisedValues: seq<AssocRow>,
    taxonomies: seq<Taxonomy>,
    taxons: seq<Taxon>,
    onlyImages: bool,
    validProducts: ValidProducts,
    baseurl: string)

  /** What one call does: the counters it adds one to, in order, and the requests it sends. */
  datatype Effect = Effect(counters: seq<Counter>, sent: seq<Request>)

  /** What `update_spree_product` or `delete_spree_product` answers, and what it sent. */
  datatype Outcome = Outcome(ok: bool, sent: seq<Request>)

  /** Both snapshots hold the record, each with a `custom1` field: the two reads of
      `custom1` in `process_stock_change` then succeed. */
  predicate InSnapshots(s: SyncState, id: int)
  {
    id in s.stockOld && id in s.stockCurrent && "custom1" in s.stockOld[id] && "custom1" in s.stockCurrent[id]
  }

  /** As written, `process_stock_change` reads `custom1` from the record in each
      snapshot once either holds it; a record missing from the other raises there
      (`nil["custom1"]`). */
  predicate ReadsBothFlags(s: SyncState, id: int)
  {
    (id in s.stockOld || id in s.stockCurrent) ==> InSnapshots(s, id)
  }

  /** Every record a snapshot holds has a `custom1` field (`nil.downcase` raises). */
  predicate FlagsReadable(s: SyncState, id: int)
  {
    && (id in s.stockOld ==> "custom1" in s.stockOld[id])
    && (id in s.stockCurrent ==> "custom1" in s.stockCurrent[id])
  }

  /** The normalised `custom1` flag of a record, as intended: a record the snapshot
      does not hold is not on the web store. */
  function WebStoreFlag(records: map<int, Record>, id: int): (r: string)
    requires id in records ==> "custom1" in records[id]
    ensures r == "yes" ==> id in records && Flag(records[id]["custom1"]) == "yes"
  {
    if id in records then Flag(records[id]["custom1"]) else ""
  }

  /** The web-store action for a change: `evaluate_stock_action_with_webstore` on the
      normalised `custom1` flags of the two snapshots. */
  function EffectiveAction(s: SyncState, id: int, action: Action): Option<Action>
    requires FlagsReadable(s, id)
  {
    EvaluateStockAction(action, WebStoreFlag(s.stockOld, id), WebStoreFlag(s.stockCurrent, id))
  }

  /** The gate of the `:new` branch: an image when only products with images are
      wanted, and a barcode on the proofed list. */
  predicate Admitted(s: SyncState, id: int, remote: Remote)
    requires id in s.stockCurrent && "Barcode" in s.stockCurrent[id]
  {
    ((s.onlyImages && remote.imagePath.Some?) || !s.onlyImages) && IsListed(s.validProducts, s.stockCurrent[id]["Barcode"])
  }

  /** When `process_stock_change`, with the flag read as intended, runs without
      raising: every record it reads has a `custom1`, and a product to be added needs
      a barcode (`nil.upcase` raises) and, once admitted, a `CategorisedStock` row
      (`nil[1]` raises). */
  predicate StockChangeDefined(s: SyncState, id: int, action: Action, remote: Remote)
  {
    (id in s.stockOld || id in s.stockCurrent) ==>
      && FlagsReadable(s, id)
      && (EffectiveAction(s, id, action) == Some(New) ==>
            id in s.stockCurrent && "Barcode" in s.stockCurrent[id] && (Admitted(s, id, remote) ==> remote.stockCategory.Some?))
  }

  /** The tail of the `:new` branch once a taxon is found and the weight is kept: the
      product is created, counted when the store accepts it, and its image uploaded
      when there is one. */
  function CreateEffect(data: ProductData, remote: Remote, baseurl: string): Effect
  {
    match remote.created
    case None => Effect([ErrorCount], [NewProduct(data)])
    case Some(permalink) =>
      match remote.imagePath
      case None => Effect([NewCount], [NewProduct(data)])
      case Some(path) =>
        Effect(if remote.uploaded then [NewCount, ImageCount] else [NewCount],
               [NewProduct(data), ImageUpload(ImageUrl(baseurl, permalink), path)])
  }

  /** The `:new` branch past the gate, given the taxon lookup and the product data:
      no taxon is an error, an infeasible weight does nothing. */
  function TaxonEffect(taxonId: Option<int>, data: ProductData, remote: Remote, baseurl: string): Effect
  {
    match taxonId
    case None => Effect([ErrorCount], [])
    case Some(_) =>
      var withTaxon := data.(taxonId := taxonId);
      if withTaxon.weight.None? then Effect([], []) else CreateEffect(withTaxon, remote, baseurl)
  }

  /** The `:new` branch. */
  function NewProductEffect(s: SyncState, id: int, remote: Remote, toReal: string -> real): Effect
    requires id in s.stockCurrent && "Barcode" in s.stockCurrent[id]
    requires Admitted(s, id, remote) ==> remote.stockCategory.Some?
  {
    if !Admitted(s, id, remote) then Effect([IgnoreImageCount], []) else NewProductTail(s, id, remote, toReal)
  }

  /** The `:new` branch past the gate: the taxon of the record's department and the
      category row's `sub_cat`, then the product data. */
  function NewProductTail(s: SyncState, id: int, remote: Remote, toReal: string -> real): Effect
    requires id in s.stockCurrent && "Barcode" in s.stockCurrent[id]
    requires remote.stockCategory.Some?
  {
    var taxonomyId := FindTaxonomyIdByDept(s.taxonomies, IntField(s.stockCurrent[id], "dept_id"));
    TaxonEffect(FindTaxonIdByCatAndTaxonomy(s.taxons, remote.stockCategory.value, taxonomyId),
                GetProductData(id, s.stockCurrent, toReal), remote, s.baseurl)
  }

  /** `update_spree_product`: a record without a barcode or without a category row
      raises inside the rescue and answers false, as does a product the store does
      not list; otherwise the merged attributes are saved with the soft-delete rule
      applied, and the answer is false only when the save raises. */
  function UpdateOutcome(s: SyncState, id: int, remote: Remote, toReal: string -> real): Outcome
    requires id in s.stockCurrent && id in s.stockOld
  {
    if "Barcode" !in s.stockCurrent[id] || remote.stockCategory.None? then Outcome(false, [])
    else
      match FindByStockId(remote.products, id)
      case None => Outcome(false, [])
      case Some(k) =>
        var taxonomyId := FindTaxonomyIdByDept(s.taxonomies, IntField(s.stockCurrent[id], "dept_id"));
        var taxonId := FindTaxonIdByCatAndTaxonomy(s.taxons, remote.stockCategory.value, taxonomyId);
        var data := GetProductData(id, s.stockCurrent, toReal).(taxonId := taxonId);
        var deletedAt := DeletedAtAfter(remote.products[k].deletedAt,
                                        QuantityField(s.stockOld[id]), QuantityField(s.stockCurrent[id]), remote.now);
        Outcome(!remote.saveRaises, [SaveProduct(remote.products[k].id, data, deletedAt)])
  }

  /** `delete_spree_product`: a product the store does not list raises inside the
      rescue (`nil.deleted_at=`) and answers false. */
  function DeleteOutcome(id: int, remote: Remote): Outcome
  {
    match FindByStockId(remote.products, id)
    case None => Outcome(false, [])
    case Some(k) => Outcome(!remote.saveRaises, [SoftDeleteProduct(remote.products[k].id, remote.now)])
  }

  /** The `case action` dispatch of `process_stock_change`, given the web-store action. */
  function ActionEffect(s: SyncState, id: int, act: Option<Action>, remote: Remote, toReal: string -> real): Effect
    requires act == Some(Update) ==> id in s.stockCurrent && id in s.stockOld
    requires act == Some(New) ==>
               id in s.stockCurrent && "Barcode" in s.stockCurrent[id] && (Admitted(s, id, remote) ==> remote.stockCategory.Some?)
  {
    match act
    case Some(New) => NewProductEffect(s, id, remote, toReal)
    case Some(Update) =>
      var o := UpdateOutcome(s, id, remote, toReal);
      Effect([if o.ok then UpdateCount else ErrorCount], o.sent)
    case Some(Delete) =>
      var o := DeleteOutcome(id, remote);
      Effect([if o.ok then DeleteCount else ErrorCount], o.sent)
    case None => Effect([IgnoreCount], [])
  }

  /** Everything `process_stock_change(stock_id, stock_action, action_count)` does. */
  function StockChangeEffect(s: SyncState, id: int, action: Action, remote: Remote, toReal: string -> real): Effect
    requires StockChangeDefined(s, id, action, remote)
  {
    if id !in s.stockOld && id !in s.stockCurrent then Effect([], [])
    else ActionEffect(s, id, EffectiveAction(s, id, action), remote, toReal)
  }

  // ---------------------------------------------------------------------------
  // Properties of process_stock_change
  // ---------------------------------------------------------------------------

  /** The counter runs the `:new` branch can produce past the gate. */
  predicate CreateRun(cs: seq<Counter>)
  {
    cs == [] || cs == [ErrorCount] || cs == [NewCount] || cs == [NewCount, ImageCount]
  }

  /** Past the gate: nothing is counted exactly when a taxon was found but the weight
      was not kept, and then nothing is sent; an image is counted only after the
      product was created, had an image and the upload went through; only products
      with a taxon and a kept weight are created, and then as given. */
  lemma TaxonEffectCounting(taxonId: Option<int>, data: ProductData, remote: Remote, baseurl: string)
    ensures var e := TaxonEffect(taxonId, data, remote, baseurl);
      && CreateRun(e.counters)
      && (e.counters == [] <==> taxonId.Some? && data.weight.None?)
      && (e.counters == [] ==> e.sent == [])
      && (ImageCount in e.counters ==> remote.created.Some? && remote.imagePath.Some? && remote.uploaded)
      && (NewCount in e.counters <==> remote.created.Some? && taxonId.Some? && data.weight.Some?)
      && (forall r :: r in e.sent ==> r.NewProduct? || r.ImageUpload?)
      && (forall r :: r in e.sent && r.NewProduct? ==>
            r.data == data.(taxonId := taxonId) && taxonId.Some? && data.weight.Some?)
  {
  }

  /** The `:new` branch: a product kept out by the gate counts as `:ignore_image` and
      sends nothing; a created product carries a taxon, a feasible weight, the
      stripped barcode as its SKU and the correlation string of its own id. */
  lemma NewProductCounting(s: SyncState, id: int, remote: Remote, toReal: string -> real)
    requires id in s.stockCurrent && "Barcode" in s.stockCurrent[id]
    requires Admitted(s, id, remote) ==> remote.stockCategory.Some?
    ensures var e := NewProductEffect(s, id, remote, toReal);
      && (!Admitted(s, id, remote) ==> e == Effect([IgnoreImageCount], []))
      && (Admitted(s, id, remote) ==> CreateRun(e.counters))
      && IgnoreValidCount !in e.counters && |e.counters| <= 2
      && (ImageCount in e.counters ==> remote.created.Some? && remote.imagePath.Some? && remote.uploaded)
      && (forall r :: r in e.sent ==> r.NewProduct? || r.ImageUpload?)
      && (forall r :: r in e.sent && r.NewProduct? ==>
            && r.data.taxonId.Some? && r.data.weight.Some?
            && 0.0 < r.data.weight.value < 10.0
            && r.data.sku == Strip(s.stockCurrent[id]["Barcode"])
            && r.data.metaDescription == MetaDescription(id))
  {
    if Admitted(s, id, remote) {
      var taxonomyId := FindTaxonomyIdByDept(s.taxonomies, IntField(s.stockCurrent[id], "dept_id"));
      var taxonId := FindTaxonIdByCatAndTaxonomy(s.taxons, remote.stockCategory.value, taxonomyId);
      var data := GetProductData(id, s.stockCurrent, toReal);
      TaxonEffectCounting(taxonId, data, remote, s.baseurl);
      CreateRunBounded(NewProductEffect(s, id, remote, toReal).counters);
    }
  }

  /** A run the `:new` branch produces moves at most two counters, never
      `:ignore_valid`. */
  lemma CreateRunBounded(cs: seq<Counter>)
    requires CreateRun(cs)
    ensures IgnoreValidCount !in cs && |cs| <= 2
  {
  }

  /** Per web-store action: an update or a delete counts exactly once, as itself when
      the store call succeeded and as an error otherwise; no action counts as ignored
      and sends nothing. */
  lemma ActionCounting(s: SyncState, id: int, act: Option<Action>, remote: Remote, toReal: string -> real)
    requires act == Some(Update) ==> id in s.stockCurrent && id in s.stockOld
    requires act == Some(New) ==>
               id in s.stockCurrent && "Barcode" in s.stockCurrent[id] && (Admitted(s, id, remote) ==> remote.stockCategory.Some?)
    ensures var e := ActionEffect(s, id, act, remote, toReal);
      && (act == Some(Update) ==> e.counters == [if UpdateOutcome(s, id, remote, toReal).ok then UpdateCount else ErrorCount])
      && (act == Some(Delete) ==> e.counters == [if DeleteOutcome(id, remote).ok then DeleteCount else ErrorCount])
      && (act == None ==> e == Effect([IgnoreCount], []))
  {
  }

  /** Whatever the action, at most two counters move, and `:ignore_valid` is never
      one of them. */
  lemma ActionCountsBounded(s: SyncState, id: int, act: Option<Action>, remote: Remote, toReal: string -> real)
    requires act == Some(Update) ==> id in s.stockCurrent && id in s.stockOld
    requires act == Some(New) ==>
               id in s.stockCurrent && "Barcode" in s.stockCurrent[id] && (Admitted(s, id, remote) ==> remote.stockCategory.Some?)
    ensures var e := ActionEffect(s, id, act, remote, toReal);
      IgnoreValidCount !in e.counters && |e.counters| <= 2
  {
    if act == Some(New) {
      NewProductCounting(s, id, remote, toReal);
      assert ActionEffect(s, id, act, remote, toReal) == NewProductEffect(s, id, remote, toReal);
    } else {
      ActionCounting(s, id, act, remote, toReal);
    }
  }

  /** Saves go out only for an update, soft deletes only for a delete, creations and
      uploads only for a new product. */
  lemma ActionRequests(s: SyncState, id: int, act: Option<Action>, remote: Remote, toReal: string -> real)
    requires act == Some(Update) ==> id in s.stockCurrent && id in s.stockOld
    requires act == Some(New) ==>
               id in s.stockCurrent && "Barcode" in s.stockCurrent[id] && (Admitted(s, id, remote) ==> remote.stockCategory.Some?)
    ensures forall r :: r in ActionEffect(s, id, act, remote, toReal).sent ==>
      && (r.SaveProduct? ==> act == Some(Update) && r.data.metaDescription == MetaDescription(id))
      && (r.SoftDeleteProduct? ==> act == Some(Delete))
      && (r.NewProduct? || r.ImageUpload? ==> act == Some(New))
  {
    match act
    case Some(New) => NewProductCounting(s, id, remote, toReal);
    case Some(Update) => UpdateOutcomeSends(s, id, remote, toReal);
    case Some(Delete) => DeleteOutcomeSends(id, remote);
    case None =>
  }

  /** An update sends at most one request: the save of the product found by its
      correlation string, carrying that same string; nothing is sent on failure
      before the save. */
  lemma UpdateOutcomeSends(s: SyncState, id: int, remote: Remote, toReal: string -> real)
    requires id in s.stockCurrent && id in s.stockOld
    ensures var o := UpdateOutcome(s, id, remote, toReal);
      && |o.sent| <= 1
      && (o.ok ==> |o.sent| == 1)
      && (forall r :: r in o.sent ==> (r.SaveProduct? && r.data.metaDescription == MetaDescription(id)
            && exists k :: 0 <= k < |remote.products| && AnswersTo(remote.products[k], id) && remote.products[k].id == r.productId))
  {
  }

  /** A delete sends at most one request: the soft delete, stamped with the current
      time, of a product that answers to the id. */
  lemma DeleteOutcomeSends(id: int, remote: Remote)
    ensures var o := DeleteOutcome(id, remote);
      && |o.sent| <= 1
      && (o.ok ==> |o.sent| == 1)
      && (forall r :: r in o.sent ==> (r.SoftDeleteProduct? && r.hiddenAt == remote.now
            && exists k :: 0 <= k < |remote.products| && AnswersTo(remote.products[k], id) && remote.products[k].id == r.productId))
  {
  }

  /** Over a whole change: a record in neither snapshot does nothing; otherwise the
      action decided from the two flags is carried out as above. */
  lemma StockCounting(s: SyncState, id: int, action: Action, remote: Remote, toReal: string -> real)
    requires StockChangeDefined(s, id, action, remote)
    ensures id !in s.stockOld && id !in s.stockCurrent ==> StockChangeEffect(s, id, action, remote, toReal) == Effect([], [])
    ensures id in s.stockOld || id in s.stockCurrent ==>
      StockChangeEffect(s, id, action, remote, toReal) == ActionEffect(s, id, EffectiveAction(s, id, action), remote, toReal)
    ensures IgnoreValidCount !in StockChangeEffect(s, id, action, remote, toReal).counters
  {
    if id in s.stockOld || id in s.stockCurrent {
      ActionCountsBounded(s, id, EffectiveAction(s, id, action), remote, toReal);
    }
  }

  /** The store is only asked to create a product that is flagged for it, only to
      soft-delete a product that was flagged, and only to save one flagged in both
      snapshots. */
  lemma StockRequestsAreSafe(s: SyncState, id: int, action: Action, remote: Remote, toReal: string -> real)
    requires StockChangeDefined(s, id, action, remote)
    ensures forall r :: r in StockChangeEffect(s, id, action, remote, toReal).sent ==>
      && (r.NewProduct? ==> id in s.stockCurrent && Flag(s.stockCurrent[id]["custom1"]) == "yes")
      && (r.SoftDeleteProduct? ==> id in s.stockOld && Flag(s.stockOld[id]["custom1"]) == "yes")
      && (r.SaveProduct? ==>
            && id in s.stockOld && id in s.stockCurrent
            && Flag(s.stockOld[id]["custom1"]) == "yes" && Flag(s.stockCurrent[id]["custom1"]) == "yes")
  {
    if id in s.stockOld || id in s.stockCurrent {
      var act := EffectiveAction(s, id, action);
      ActionRequests(s, id, act, remote, toReal);
      TransitionIsSafe(action, WebStoreFlag(s.stockOld, id), WebStoreFlag(s.stockCurrent, id));
    }
  }

  // ---------------------------------------------------------------------------
  // Records missing from one snapshot
  // ---------------------------------------------------------------------------

  /** The changes the driver hands to `process_stock_change`: the fingerprints of the
      current records compared with the saved ones. */
  function StockChanges(s: SyncState, prevHashes: map<int, string>, md5: string -> string): map<int, Action>
  {
    Classification(Lift(Fingerprints(s.stockCurrent, md5)), Lift(prevHashes))
  }

  /** As written, after a first run (the saved fingerprints and the saved records come
      from the same run, so they have the same ids) every raw `:delete` and every raw
      `:new` is of a record missing from one snapshot, so reading its `custom1` raises
      and the run ends there; only `:update`s read both records. On the first run (no
      saved files: no fingerprints, and the current records stand in for the old)
      every change is `:new` of a record both snapshots hold. */
  lemma MissingRecordRaises(s: SyncState, prevHashes: map<int, string>, md5: string -> string)
    ensures prevHashes.Keys == s.stockOld.Keys ==>
      forall id :: id in StockChanges(s, prevHashes, md5) ==>
        (StockChanges(s, prevHashes, md5)[id] == Update <==> id in s.stockOld && id in s.stockCurrent)
        && (StockChanges(s, prevHashes, md5)[id] != Update ==> !ReadsBothFlags(s, id))
    ensures prevHashes == map[] && s.stockOld == s.stockCurrent ==>
      forall id :: id in StockChanges(s, prevHashes, md5) ==>
        StockChanges(s, prevHashes, md5)[id] == New && id in s.stockOld && id in s.stockCurrent
  {
    var cur := Lift(Fingerprints(s.stockCurrent, md5));
    var prev := Lift(prevHashes);
    forall id | id in StockChanges(s, prevHashes, md5)
      ensures Get(cur, id) != None <==> id in s.stockCurrent
      ensures Get(prev, id) != None <==> id in prevHashes
    {
    }
  }

  /** As intended, a record missing from one snapshot reads as not on the web store:
      after a first run, a record gone from the database is hidden exactly when it was
      on the store, a new record is added exactly when it is flagged for the store, an
      update reads both records, and no change reads a missing record. */
  lemma MissingRecordHandled(s: SyncState, prevHashes: map<int, string>, md5: string -> string)
    requires prevHashes.Keys == s.stockOld.Keys
    requires forall id :: id in s.stockOld ==> "custom1" in s.stockOld[id]
    requires forall id :: id in s.stockCurrent ==> "custom1" in s.stockCurrent[id]
    ensures forall id :: id in StockChanges(s, prevHashes, md5) ==>
      var change := StockChanges(s, prevHashes, md5)[id];
      && FlagsReadable(s, id)
      && (change == Delete ==>
            && id in s.stockOld && id !in s.stockCurrent
            && EffectiveAction(s, id, change) == (if Flag(s.stockOld[id]["custom1"]) == "yes" then Some(Delete) else None))
      && (change == New ==>
            && id !in s.stockOld && id in s.stockCurrent
            && EffectiveAction(s, id, change) == (if Flag(s.stockCurrent[id]["custom1"]) == "yes" then Some(New) else None))
      && (change == Update ==> InSnapshots(s, id))
  {
    MissingRecordRaises(s, prevHashes, md5);
  }

  // ---------------------------------------------------------------------------
  // The :update branches of the category handlers
  // ---------------------------------------------------------------------------

  /** The category tables an instance variable of the job holds, by name; a name the
      job never assigns reads nil. */
  function TablesIvar(s: SyncState, name: string): Option<CategoryTables>
  {
    if name == "categories_current" then Some(s.categoriesCurrent)
    else if name == "categories_old" then Some(s.categoriesOld)
    else None
  }

  /** The entry an `:update` files, from the old tables and the tables read as current;
      `dept` chooses the department table, else the category table. */
  function UpdateEntryFrom(before: CategoryTables, after: CategoryTables, id: int, dept: bool): ErrorEntry
  {
    if dept then ErrorEntry(DepartmentUpdated, Get(before.dept, id), Get(after.dept, id))
    else ErrorEntry(CategoryUpdated, Get(before.cat1, id), Get(after.cat1, id))
  }

  /** The `:update` branch as written: it reads `@categories_curent`, which the job
      never assigns, so `nil[:dept]` (or `nil[:cat1]`) raises; None stands for that. */
  function UpdateEntryAsWritten(s: SyncState, id: int, dept: bool): Option<ErrorEntry>
  {
    match TablesIvar(s, "categories_curent")
    case None => None
    case Some(current) => Some(UpdateEntryFrom(s.categoriesOld, current, id, dept))
  }

  /** As written, every `:update` of a department or category raises, for any state,
      although the tables the branch means to read are there. */
  lemma UpdateEntryAsWrittenRaises(s: SyncState, id: int, dept: bool)
    ensures UpdateEntryAsWritten(s, id, dept) == None
    ensures TablesIvar(s, "categories_current") == Some(s.categoriesCurrent)
  {
  }

  /** The `:update` branch as intended: the entry reads `@categories_current`. */
  function UpdateEntry(s: SyncState, id: int, dept: bool): ErrorEntry
  {
    UpdateEntryFrom(s.categoriesOld, TablesIvar(s, "categories_current").value, id, dept)
  }

  /** The intended entry reports the rename: the name before, from the old tables, and
      the name after, from the current ones, and it tells departments from categories. */
  lemma UpdateEntryReportsRename(s: SyncState, id: int, dept: bool)
    ensures var e := UpdateEntry(s, id, dept);
      && (e.notice == DepartmentUpdated <==> dept) && (e.notice == CategoryUpdated <==> !dept)
      && e.previousState == Get(if dept then s.categoriesOld.dept else s.categoriesOld.cat1, id)
      && e.newState == Get(if dept then s.categoriesCurrent.dept else s.categoriesCurrent.cat1, id)
      && (Get(s.categoriesOld.dept, id) != Get(s.categoriesCurrent.dept, id) && dept ==> e.previousState != e.newState)
  {
  }

  // ---------------------------------------------------------------------------
  // process_category_change: the taxons a new category gets
  // ---------------------------------------------------------------------------

  /** The departments a new category is added to: none when its name is "<N/A>" or
      it belongs to no department, else every department of its association rows. */
  function TaxonDepartments(s: SyncState, id: int): set<int>
  {
    var details := FindCategoryDetails(id, s.categoriesCurrent, s.categorisedValues);
    if details.catName != Some("<N/A>") && details.deptDetails != map[] then details.deptDetails.Keys else {}
  }

  /** The taxon request for one department. */
  function TaxonRequest(name: string, taxonomies: seq<Taxonomy>, catId: int, dept: int): Request
  {
    var taxonomyId := FindTaxonomyIdByDept(taxonomies, Some(dept));
    NewTaxon(Capitalize(name), taxonomyId, taxonomyId, catId)
  }

  /** The taxon requests for departments visited in `order`. */
  function TaxonRequests(name: string, taxonomies: seq<Taxonomy>, catId: int, order: seq<int>): (r: seq<Request>)
    ensures |r| == |order|
  {
    if order == [] then []
    else TaxonRequests(name, taxonomies, catId, order[..|order| - 1]) + [TaxonRequest(name, taxonomies, catId, order[|order| - 1])]
  }

  /** Visiting one more department sends one more taxon request. */
  lemma TaxonRequestsAppend(name: string, taxonomies: seq<Taxonomy>, catId: int, order: seq<int>, dept: int)
    ensures TaxonRequests(name, taxonomies, catId, order + [dept])
      == TaxonRequests(name, taxonomies, catId, order) + [TaxonRequest(name, taxonomies, catId, dept)]
  {
    assert (order + [dept])[..|order|] == order;
  }

  /** `order` lists every member of `keys` exactly once (a Hash's iteration order). */
  predicate Enumerates(order: seq<int>, keys: set<int>)
  {
    && |order| == |keys|
    && (forall i :: 0 <= i < |order| ==> order[i] in keys)
    && (forall i, j :: 0 <= i < j < |order| ==> order[i] != order[j])
  }

  /** A category named "<N/A>" gets no taxon; otherwise one taxon goes to each non-zero
      department among its association rows. */
  lemma TaxonDepartmentsAreAssociations(s: SyncState, id: int)
    ensures Get(s.categoriesCurrent.cat1, id) == Some("<N/A>") ==> TaxonDepartments(s, id) == {}
    ensures Get(s.categoriesCurrent.cat1, id) != Some("<N/A>") ==>
      TaxonDepartments(s, id) == DeptIdsOf(id, s.categorisedValues)
  {
    DeptDetailsKeys(id, s.categoriesCurrent.dept, s.categorisedValues);
  }

  /** Extending an enumeration by a key not yet listed. */
  lemma EnumeratesStep(order: seq<int>, done: set<int>, d: int)
    requires Enumerates(order, done) && d !in done
    ensures Enumerates(order + [d], done + {d})
  {
    assert |done + {d}| == |done| + 1;
  }

  // ---------------------------------------------------------------------------
  // The job
  // ---------------------------------------------------------------------------

  /** `Spree::ODBC::RM`. */
  class RM {
    var spreeBaseurl: string
    var yamlRecordsFilename: string
    var md5RecordsFilename: string
    var categoriesFilename: string
    var onlyImages: bool
    var validProducts: ValidProducts

    var categoriesCurrent: CategoryTables
    var categoriesOld: CategoryTables
    var categorisedValues: seq<AssocRow>
    var stockRecordsCurrent: map<int, Record>
    var stockRecordsOld: map<int, Record>
    var md5HashCurrent: map<int, string>
    var md5HashOld: map<int, string>
    var spreeTaxonomies: seq<Taxonomy>
    var spreeTaxons: seq<Taxon>

    /** The writes sent to the web store so far, oldest first. */
    var requests: seq<Request>

    /** `RM.new(env)`. `configFiles` gives what `YAML.load_file` reads from a path, and
        `validFile` the proofed barcode list (None when it cannot be loaded). Logging,
        the database connection and bootstrap file deletion are not modelled. */
    constructor(env: string, configFiles: string -> Config, validFile: Option<seq<string>>)
      ensures var config := configFiles(ConfigPath(env));
        && spreeBaseurl == NormalizeBaseUrl(config.spreeBaseurl)
        && yamlRecordsFilename == EnvFilename(config.yamlRecordsFilename, env)
        && md5RecordsFilename == EnvFilename(config.md5RecordsFilename, env)
        && categoriesFilename == EnvFilename(config.categoriesFilename, env)
        && onlyImages == config.onlyImages
      ensures validProducts == LoadValidProducts(validFile)
      ensures requests == [] && spreeTaxonomies == [] && spreeTaxons == []
    {
      var config := configFiles(ConfigPath(env));
      spreeBaseurl := NormalizeBaseUrl(config.spreeBaseurl);
      yamlRecordsFilename := EnvFilename(config.yamlRecordsFilename, env);
      md5RecordsFilename := EnvFilename(config.md5RecordsFilename, env);
      categoriesFilename := EnvFilename(config.categoriesFilename, env);
      onlyImages := config.onlyImages;
      validProducts := LoadValidProducts(validFile);
      categoriesCurrent := CategoryTables(map[], map[]);
      categoriesOld := CategoryTables(map[], map[]);
      categorisedValues := [];
      stockRecordsCurrent := map[];
      stockRecordsOld := map[];
      md5HashCurrent := map[];
      md5HashOld := map[];
      spreeTaxonomies := [];
      spreeTaxons := [];
      requests := [];
    }

    /** The state the decisions read. */
    function State(): SyncState
      reads this`stockRecordsCurrent, this`stockRecordsOld, this`categoriesCurrent, this`categoriesOld,
            this`categorisedValues, this`spreeTaxonomies, this`spreeTaxons, this`onlyImages,
            this`validProducts, this`spreeBaseurl
    {
      SyncState(stockRecordsCurrent, stockRecordsOld, categoriesCurrent, categoriesOld, categorisedValues,
                spreeTaxonomies, spreeTaxons, onlyImages, validProducts, spreeBaseurl)
    }

    /** `fetch_current_data`, given the rows the four queries return. */
    method FetchCurrentData(deptRows: seq<NameRow>, catRows: seq<NameRow>, assocRows: seq<AssocRow>,
                            names: seq<string>, stockRows: seq<seq<Option<string>>>,
                            toF: string -> string, md5: string -> string)
      requires forall i :: 0 <= i < |stockRows| ==> |stockRows[i]| == |names|
      modifies this`categoriesCurrent, this`categorisedValues, this`stockRecordsCurrent, this`md5HashCurrent
      ensures categoriesCurrent == CategoryTables(NameMapOf(deptRows) - {0}, NameMapOf(catRows))
      ensures categorisedValues == assocRows
      ensures stockRecordsCurrent == StockRecords(names, stockRows, toF)
      ensures md5HashCurrent == Fingerprints(stockRecordsCurrent, md5)
    {
      var dept := FetchDepartments(deptRows);
      var cat1 := FetchCategories(catRows);
      categoriesCurrent := CategoryTables(dept, cat1);
      categorisedValues := assocRows;
      stockRecordsCurrent := FetchStockRecords(names, stockRows, toF);
      md5HashCurrent := GetMd5Hashes(stockRecordsCurrent, md5);
    }

    /** `fetch_old_data`, given what the three snapshot files hold (None for a missing
        file): no saved stock records means the current ones. */
    method FetchOldData(categoriesFile: Option<CategoryTables>, recordsFile: Option<map<int, Record>>,
                        md5File: Option<map<int, string>>)
      modifies this`categoriesOld, this`stockRecordsOld, this`md5HashOld
      ensures categoriesOld == LoadWithDefault(categoriesFile, CategoryTables(map[], map[]))
      ensures stockRecordsOld == LoadWithDefault(recordsFile, stockRecordsCurrent)
      ensures md5HashOld == LoadWithDefault(md5File, map[])
    {
      categoriesOld := LoadWithDefault(categoriesFile, CategoryTables(map[], map[]));
      stockRecordsOld := LoadWithDefault(recordsFile, stockRecordsCurrent);
      md5HashOld := LoadWithDefault(md5File, map[]);
    }

    /** `get_spree_taxonomies` and `get_spree_taxons`, given what the store lists. */
    method GetSpreeCatalog(taxonomies: seq<Taxonomy>, taxons: seq<Taxon>)
      modifies this`spreeTaxonomies, this`spreeTaxons
      ensures spreeTaxonomies == taxonomies && spreeTaxons == taxons
    {
      spreeTaxonomies := taxonomies;
      spreeTaxons := taxons;
    }

    // -------------------------------------------------------------------------
    // Store calls
    // -------------------------------------------------------------------------

    /** `add_spree_product(product_data)`: nothing without a taxon; otherwise the new
        product is sent and its permalink comes back when the store accepts it. */
    method AddSpreeProduct(data: ProductData, remote: Remote) returns (product: Option<string>)
      modifies this`requests
      ensures data.taxonId.None? ==> product.None? && requests == old(requests)
      ensures data.taxonId.Some? ==> product == remote.created && requests == old(requests) + [NewProduct(data)]
    {
      if data.taxonId.None? {
        return None;
      }
      requests := requests + [NewProduct(data)];
      product := remote.created;
    }

    /** `upload_image(image_file, product_id)`. */
    method UploadImage(imageFile: string, productId: string, remote: Remote) returns (ok: bool)
      modifies this`requests
      ensures ok == remote.uploaded
      ensures requests == old(requests) + [ImageUpload(ImageUrl(spreeBaseurl, productId), imageFile)]
    {
      requests := requests + [ImageUpload(ImageUrl(spreeBaseurl, productId), imageFile)];
      ok := remote.uploaded;
    }

    /** `update_spree_product(stock_id, @stock_records_current, @stock_records_old)`. */
    method UpdateSpreeProduct(stockId: int, remote: Remote, toReal: string -> real) returns (ok: bool)
      requires stockId in stockRecordsCurrent && stockId in stockRecordsOld
      modifies this`requests
      ensures ok == UpdateOutcome(old(State()), stockId, remote, toReal).ok
      ensures requests == old(requests) + UpdateOutcome(old(State()), stockId, remote, toReal).sent
    {
      ghost var outcome := UpdateOutcome(State(), stockId, remote, toReal);
      var found := FindByStockId(remote.products, stockId);
      if "Barcode" !in stockRecordsCurrent[stockId] || remote.stockCategory.None? {
        assert outcome == Outcome(false, []);
        return false;
      }
      var productData := GetProductData(stockId, stockRecordsCurrent, toReal);
      var catId := remote.stockCategory.value;
      var deptId := IntField(stockRecordsCurrent[stockId], "dept_id");
      var taxonomyId := FindTaxonomyIdByDept(spreeTaxonomies, deptId);
      productData := productData.(taxonId := FindTaxonIdByCatAndTaxonomy(spreeTaxons, catId, taxonomyId));
      if found.None? {
        assert outcome == Outcome(false, []);
        return false;
      }
      var product := remote.products[found.value];
      var deletedAt := product.deletedAt;
      var oldQuantity := QuantityField(stockRecordsOld[stockId]);
      var newQuantity := QuantityField(stockRecordsCurrent[stockId]);
      if oldQuantity > 0 && newQuantity == 0 {
        deletedAt := Some(remote.now);
      }
      if oldQuantity == 0 && newQuantity > 0 {
        deletedAt := None;
      }
      assert deletedAt == DeletedAtAfter(product.deletedAt, oldQuantity, newQuantity, remote.now);
      assert outcome == Outcome(!remote.saveRaises, [SaveProduct(product.id, productData, deletedAt)]);
      requests := requests + [SaveProduct(product.id, productData, deletedAt)];
      ok := !remote.saveRaises;
    }

    /** `delete_spree_product(stock_id)`. */
    method DeleteSpreeProduct(stockId: int, remote: Remote) returns (ok: bool)
      modifies this`requests
      ensures ok == DeleteOutcome(stockId, remote).ok
      ensures requests == old(requests) + DeleteOutcome(stockId, remote).sent
    {
      var found := FindByStockId(remote.products, stockId);
      if found.None? {
        return false;
      }
      var product := remote.products[found.value];
      requests := requests + [SoftDeleteProduct(product.id, remote.now)];
      ok := !remote.saveRaises;
    }

    // -------------------------------------------------------------------------
    // process_stock_change
    // -------------------------------------------------------------------------

    /** `process_stock_change(stock_id, stock_action, action_count)`. */
    method ProcessStockChange(stockId: int, stockAction: Action, actionCount: ActionCount, remote: Remote,
                              toReal: string -> real)
      requires StockChangeDefined(State(), stockId, stockAction, remote)
      requires HasAllCounters(actionCount.counts)
      modifies this`requests, actionCount
      ensures actionCount.counts
        == Bump(old(actionCount.counts), StockChangeEffect(old(State()), stockId, stockAction, remote, toReal).counters)
      ensures requests == old(requests) + StockChangeEffect(old(State()), stockId, stockAction, remote, toReal).sent
    {
      if stockId in stockRecordsOld || stockId in stockRecordsCurrent {
        var webStoreCurrent := WebStoreFlag(stockRecordsCurrent, stockId);
        var webStoreOld := WebStoreFlag(stockRecordsOld, stockId);
        var action := EvaluateStockAction(stockAction, webStoreOld, webStoreCurrent);
        CarryOut(stockId, action, actionCount, remote, toReal);
      }
    }

    /** The `case action` of `process_stock_change`: the branch for the web-store
        action, and the counter it bumps. */
    method CarryOut(stockId: int, action: Option<Action>, actionCount: ActionCount, remote: Remote,
                    toReal: string -> real)
      requires action == Some(Update) ==> stockId in stockRecordsCurrent && stockId in stockRecordsOld
      requires action == Some(New) ==>
                 && stockId in stockRecordsCurrent && "Barcode" in stockRecordsCurrent[stockId]
                 && (Admitted(State(), stockId, remote) ==> remote.stockCategory.Some?)
      requires HasAllCounters(actionCount.counts)
      modifies this`requests, actionCount
      ensures actionCount.counts
        == Bump(old(actionCount.counts), ActionEffect(old(State()), stockId, action, remote, toReal).counters)
      ensures requests == old(requests) + ActionEffect(old(State()), stockId, action, remote, toReal).sent
    {
      match action {
        case Some(New) =>
          ProcessNewProduct(stockId, actionCount, remote, toReal);
        case Some(Update) =>
          var ok := UpdateSpreeProduct(stockId, remote, toReal);
          actionCount.Increment(if ok then UpdateCount else ErrorCount);
        case Some(Delete) =>
          var ok := DeleteSpreeProduct(stockId, remote);
          actionCount.Increment(if ok then DeleteCount else ErrorCount);
        case None =>
          actionCount.Increment(IgnoreCount);
      }
    }

    /** The `:new` branch of `process_stock_change`: the gate, then the taxon of the
        record's department and the category row's `sub_cat`, and the product data. */
    method ProcessNewProduct(stockId: int, actionCount: ActionCount, remote: Remote, toReal: string -> real)
      requires stockId in stockRecordsCurrent && "Barcode" in stockRecordsCurrent[stockId]
      requires Admitted(State(), stockId, remote) ==> remote.stockCategory.Some?
      requires HasAllCounters(actionCount.counts)
      modifies this`requests, actionCount
      ensures actionCount.counts == Bump(old(actionCount.counts), NewProductEffect(old(State()), stockId, remote, toReal).counters)
      ensures requests == old(requests) + NewProductEffect(old(State()), stockId, remote, toReal).sent
    {
      var imagePath := remote.imagePath;
      var barcode := stockRecordsCurrent[stockId]["Barcode"];
      if ((onlyImages && imagePath.Some?) || !onlyImages) && IsListed(validProducts, barcode) {
        var catId := remote.stockCategory.value;
        var deptId := IntField(stockRecordsCurrent[stockId], "dept_id");
        var taxonomyId := FindTaxonomyIdByDept(spreeTaxonomies, deptId);
        var newProductData := GetProductData(stockId, stockRecordsCurrent, toReal);
        var taxonId := FindTaxonIdByCatAndTaxonomy(spreeTaxons, catId, taxonomyId);
        AddNewProduct(taxonId, newProductData, actionCount, remote);
      } else {
        actionCount.Increment(IgnoreImageCount);
      }
    }

    /** The rest of the `:new` branch: no taxon is an error, an infeasible weight does
        nothing, otherwise the product is created. */
    method AddNewProduct(taxonId: Option<int>, data: ProductData, actionCount: ActionCount, remote: Remote)
      requires HasAllCounters(actionCount.counts)
      modifies this`requests, actionCount
      ensures actionCount.counts == Bump(old(actionCount.counts), TaxonEffect(taxonId, data, remote, spreeBaseurl).counters)
      ensures requests == old(requests) + TaxonEffect(taxonId, data, remote, spreeBaseurl).sent
    {
      if taxonId.Some? {
        var newProductData := data.(taxonId := taxonId);
        if newProductData.weight.Some? {
          CreateProduct(newProductData, actionCount, remote);
        }
      } else {
        actionCount.Increment(ErrorCount);
      }
    }

    /** The end of the `:new` branch: `add_spree_product`, counted when the store
        accepts it, then the upload of the image `find_image` found, if any. */
    method CreateProduct(data: ProductData, actionCount: ActionCount, remote: Remote)
      requires data.taxonId.Some?
      requires HasAllCounters(actionCount.counts)
      modifies this`requests, actionCount
      ensures actionCount.counts == Bump(old(actionCount.counts), CreateEffect(data, remote, spreeBaseurl).counters)
      ensures requests == old(requests) + CreateEffect(data, remote, spreeBaseurl).sent
    {
      var newProduct := AddSpreeProduct(data, remote);
      if newProduct.Some? {
        actionCount.Increment(NewCount);
        if remote.imagePath.Some? {
          var uploaded := UploadImage(remote.imagePath.value, newProduct.value, remote);
          if uploaded {
            actionCount.Increment(ImageCount);
            BumpAppend(old(actionCount.counts), [NewCount], [ImageCount]);
          }
        }
      } else {
        actionCount.Increment(ErrorCount);
      }
    }

    // -------------------------------------------------------------------------
    // process_department_change and process_category_change
    // -------------------------------------------------------------------------

    /** `add_spree_category(data, type)`: the taxon or taxonomy is sent. */
    method AddSpreeCategory(request: Request)
      requires request.NewTaxon? || request.NewTaxonomy?
      modifies this`requests
      ensures requests == old(requests) + [request]
    {
      requests := requests + [request];
    }

    /** `process_department_change(id, action, errors_for_email)`, with the `:update`
        branch as intended (`UpdateEntry`). A new department needs a name
        (`nil.capitalize` raises). */
    method ProcessDepartmentChange(id: int, action: Action, errors: ErrorReport)
      requires action == New ==> Get(categoriesCurrent.dept, id).Some?
      modifies this`requests, errors
      ensures action == Update ==> (requests == old(requests)
        && errors.entries == old(errors.entries)[id := UpdateEntry(old(State()), id, true)])
      ensures action == New ==> (errors.entries == old(errors.entries)
        && requests == old(requests) + [NewTaxonomy(Capitalize(Get(categoriesCurrent.dept, id).value), id)])
      ensures action == Delete ==> (requests == old(requests)
        && errors.entries == old(errors.entries)[id := ErrorEntry(DepartmentDeleted, Get(categoriesOld.dept, id), Some("## DELETED"))])
    {
      match action {
        case Update =>
          errors.entries := errors.entries[id := UpdateEntryFrom(categoriesOld, categoriesCurrent, id, true)];
        case New =>
          var name := Get(categoriesCurrent.dept, id).value;
          AddSpreeCategory(NewTaxonomy(Capitalize(name), id));
        case Delete =>
          errors.entries := errors.entries[id := ErrorEntry(DepartmentDeleted, Get(categoriesOld.dept, id), Some("## DELETED"))];
      }
    }

    /** `process_category_change(id, action, errors_for_email)`, with the `:update`
        branch as intended; a new category that is to get taxons needs a name. Taxons
        go out one per department, in the Hash's order. */
    method ProcessCategoryChange(id: int, action: Action, errors: ErrorReport)
      requires action == New && TaxonDepartments(State(), id) != {} ==> Get(categoriesCurrent.cat1, id).Some?
      modifies this`requests, errors
      ensures action == Update ==> (requests == old(requests)
        && errors.entries == old(errors.entries)[id := UpdateEntry(old(State()), id, false)])
      ensures action == New ==> (errors.entries == old(errors.entries)
        && (TaxonDepartments(old(State()), id) == {} ==> requests == old(requests))
        && (TaxonDepartments(old(State()), id) != {} ==> exists order :: (
              Enumerates(order, TaxonDepartments(old(State()), id))
              && requests == old(requests)
                 + TaxonRequests(Get(categoriesCurrent.cat1, id).value, spreeTaxonomies, id, order))))
      ensures action == Delete ==> (requests == old(requests)
        && errors.entries == old(errors.entries)[id := ErrorEntry(CategoryDeleted, Get(categoriesOld.cat1, id), Some("## DELETED"))])
    {
      match action {
        case Update =>
          errors.entries := errors.entries[id := UpdateEntryFrom(categoriesOld, categoriesCurrent, id, false)];
        case New =>
          var details := FindCategoryDetails(id, categoriesCurrent, categorisedValues);
          if details.catName != Some("<N/A>") && details.deptDetails != map[] {
            ghost var order := AddCategoryTaxons(details.catName.value, details.deptDetails.Keys, id);
          }
        case Delete =>
          errors.entries := errors.entries[id := ErrorEntry(CategoryDeleted, Get(categoriesOld.cat1, id), Some("## DELETED"))];
      }
    }

    /** The `dept_details.each` loop of `process_category_change`: one taxon per
        department, under that department's taxonomy, in the Hash's order. */
    method AddCategoryTaxons(name: string, depts: set<int>, id: int) returns (ghost order: seq<int>)
      modifies this`requests
      ensures Enumerates(order, depts)
      ensures requests == old(requests) + TaxonRequests(name, spreeTaxonomies, id, order)
    {
      var todo := depts;
      ghost var done: set<int> := {};
      ghost var before := requests;
      order := [];
      while todo != {}
        invariant done + todo == depts && done !! todo
        invariant Enumerates(order, done)
        invariant requests == before + TaxonRequests(name, spreeTaxonomies, id, order)
        decreases |todo|
      {
        HasMember(todo);
        var dept :| dept in todo;
        AddDepartmentTaxon(name, dept, id, before, order);
        EnumeratesStep(order, done, dept);
        MoveKey(done, todo, dept);
        order := order + [dept];
        todo := todo - {dept};
        done := done + {dept};
      }
      assert done == depts;
    }

    /** One turn of the `dept_details.each` loop: the taxon of the category under the
        department's taxonomy. */
    method AddDepartmentTaxon(name: string, dept: int, id: int, ghost before: seq<Request>, ghost order: seq<int>)
      requires requests == before + TaxonRequests(name, spreeTaxonomies, id, order)
      modifies this`requests
      ensures requests == before + TaxonRequests(name, spreeTaxonomies, id, order + [dept])
    {
      ghost var sent := TaxonRequests(name, spreeTaxonomies, id, order);
      var taxonomyId := FindTaxonomyIdByDept(spreeTaxonomies, Some(dept));
      AddSpreeCategory(NewTaxon(Capitalize(name), taxonomyId, taxonomyId, id));
      TaxonRequestsAppend(name, spreeTaxonomies, id, order, dept);
      assert requests == before + (sent + [TaxonRequest(name, spreeTaxonomies, id, dept)]);
    }
  }
}
