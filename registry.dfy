/**
 * The model list `_refresh_models` builds from the server's two catalog answers:
 * a size table from the newer endpoint, and the model entries from the older one,
 * with identifiers and display names falling back on each other.
 */
module Registry {
  import opened Wrappers
  import opened Strings

  /** The `quantization` field of a size entry: a dict with a `name`, a string, or anything else. */
  datatype Quantization = QuantDict(name: string) | QuantText(text: string) | QuantOther

  /**
   * One entry of the size listing. An absent `key` reads as `""` and an absent or
   * null `size_bytes` as `0`; both are falsy, as in the source.
   */
  datatype SizeEntry = SizeEntry(key: string, sizeBytes: nat, quant: Quantization)

  /** The size request failed (or answered with an error status), or gave its `models` list. */
  datatype SizeListing = SizesFailed | SizesOk(models: seq<SizeEntry>)

  /** One entry of the model catalog; an absent or empty `id` or `name` reads as `""`. */
  datatype CatalogEntry = CatalogEntry(id: string, name: string)

  /**
   * The catalog answer: a failure, a dict holding a `data` list, or any other JSON
   * value (a bare list, a dict without `data`).
   */
  datatype Catalog = CatalogFailed | CatalogData(data: seq<CatalogEntry>) | CatalogOther

  /** A row of the model list: its id, the text shown for it and its size, if known. */
  datatype ModelDescriptor = ModelDescriptor(id: string, displayName: string, sizeBytes: Option<nat>)

  /** The quantization name used for the second key, `""` when there is none. */
  function QuantName(q: Quantization): string {
    match q
    case QuantDict(name) => name
    case QuantText(text) => text
    case QuantOther => ""
  }

  /** The `key@quantization` alias under which a `@`-suffixed model id finds its size. */
  function AliasKey(e: SizeEntry): string {
    e.key + "@" + Lower(QuantName(e.quant))
  }

  /** An entry is used only when both its key and its size are truthy. */
  predicate Usable(e: SizeEntry) {
    e.key != "" && e.sizeBytes > 0
  }

  /** The keys one entry writes into the size table, each mapped to its size. */
  function Writes(e: SizeEntry): (m: map<string, nat>)
    ensures Usable(e) <==> e.key in m
    ensures Usable(e) && QuantName(e.quant) != "" <==> AliasKey(e) in m
    ensures forall k :: k in m ==> m[k] == e.sizeBytes && (k == e.key || k == AliasKey(e))
  {
    if !Usable(e) then map[]
    else if QuantName(e.quant) == "" then map[e.key := e.sizeBytes]
    else map[e.key := e.sizeBytes][AliasKey(e) := e.sizeBytes]
  }

  /** The size table after the entries, in order: a later entry overwrites an earlier one. */
  function SizesFrom(entries: seq<SizeEntry>): map<string, nat> {
    if entries == [] then map[]
    else SizesFrom(entries[..|entries| - 1]) + Writes(entries[|entries| - 1])
  }

  function Sizes(listing: SizeListing): map<string, nat> {
    match listing
    case SizesFailed => map[]
    case SizesOk(models) => SizesFrom(models)
  }

  /** Every key an entry writes is in the table. */
  lemma {:induction false} SizesComplete(entries: seq<SizeEntry>, j: nat, k: string)
    requires j < |entries| && k in Writes(entries[j])
    ensures k in SizesFrom(entries)
  {
    if j < |entries| - 1 {
      SizesComplete(entries[..|entries| - 1], j, k);
    }
  }

  /** A key keeps the size of the last entry that writes it. */
  lemma {:induction false} SizesLastWins(entries: seq<SizeEntry>, j: nat, k: string)
    requires j < |entries| && k in Writes(entries[j])
    requires forall l :: j < l < |entries| ==> k !in Writes(entries[l])
    ensures k in SizesFrom(entries) && SizesFrom(entries)[k] == entries[j].sizeBytes
  {
    if j < |entries| - 1 {
      var init := entries[..|entries| - 1];
      forall l | j < l < |init|
        ensures k !in Writes(init[l])
      {
        assert init[l] == entries[l];
      }
      SizesLastWins(init, j, k);
    }
  }

  /** Every key in the table was written by some usable entry, and every size in it is positive. */
  lemma {:induction false} SizesSound(entries: seq<SizeEntry>, k: string)
    requires k in SizesFrom(entries)
    ensures SizesFrom(entries)[k] > 0
    ensures exists j :: 0 <= j < |entries| && Usable(entries[j]) && k in Writes(entries[j])
  {
    var last := entries[|entries| - 1];
    var init := entries[..|entries| - 1];
    if k in Writes(last) {
      assert Usable(entries[|entries| - 1]);
    } else {
      SizesSound(init, k);
      var j :| 0 <= j < |init| && Usable(init[j]) && k in Writes(init[j]);
      assert entries[j] == init[j];
    }
  }

  /** One more entry: the table so far, overwritten by what that entry writes. */
  lemma SizesStep(models: seq<SizeEntry>, i: nat)
    requires i < |models|
    ensures SizesFrom(models[..i + 1]) == SizesFrom(models[..i]) + Writes(models[i])
  {
    assert models[..i + 1][..i] == models[..i];
  }

  /** Writing an entry's keys over a table, as the two dict assignments do. */
  lemma WritesOver(sizes: map<string, nat>, e: SizeEntry)
    ensures sizes + Writes(e) ==
      if !Usable(e) then sizes
      else if QuantName(e.quant) == "" then sizes[e.key := e.sizeBytes]
      else sizes[e.key := e.sizeBytes][AliasKey(e) := e.sizeBytes]
  {
  }

  /** The loop over the size listing that fills `sizes_map`. */
  method BuildSizesMap(listing: SizeListing) returns (sizes: map<string, nat>)
    ensures sizes == Sizes(listing)
  {
    sizes := map[];
    if listing.SizesOk? {
      var models := listing.models;
      var i := 0;
      while i < |models|
        invariant 0 <= i <= |models|
        invariant sizes == SizesFrom(models[..i])
      {
        var e := models[i];
        SizesStep(models, i);
        WritesOver(sizes, e);
        if e.key != "" && e.sizeBytes > 0 {
          sizes := sizes[e.key := e.sizeBytes];
          var qname := QuantName(e.quant);
          if qname != "" {
            sizes := sizes[e.key + "@" + Lower(qname) := e.sizeBytes];
          }
        }
        i := i + 1;
      }
      assert models[..i] == models;
    }
  }

  /**
   * One catalog entry: the id is `id`, or `name` when `id` is empty; the shown name
   * is `name`, or the id; the entry is skipped when both are empty.
   */
  function Describe(e: CatalogEntry, sizes: map<string, nat>): (r: Option<ModelDescriptor>)
    ensures r.None? <==> e.id == "" && e.name == ""
    ensures r.Some? ==> r.value.id == (if e.id != "" then e.id else e.name)
    ensures r.Some? ==> r.value.displayName == (if e.name != "" then e.name else e.id)
    ensures r.Some? ==> r.value.id != "" && r.value.displayName != ""
    ensures r.Some? ==> (r.value.sizeBytes.Some? <==> r.value.id in sizes)
    ensures r.Some? && r.value.sizeBytes.Some? ==> r.value.sizeBytes.value == sizes[r.value.id]
  {
    var mid := if e.id != "" then e.id else e.name;
    var display := if e.name != "" then e.name else mid;
    if mid == "" then None
    else Some(ModelDescriptor(mid, display, if mid in sizes then Some(sizes[mid]) else None))
  }

  /** The rows the catalog entries give, in catalog order. */
  function DescribeAll(data: seq<CatalogEntry>, sizes: map<string, nat>): (r: seq<ModelDescriptor>)
    ensures |r| <= |data|
    ensures forall d :: d in r ==> d.id != "" && d.displayName != ""
  {
    if data == [] then []
    else
      var init := DescribeAll(data[..|data| - 1], sizes);
      match Describe(data[|data| - 1], sizes)
      case None => init
      case Some(d) => init + [d]
  }

  /** Only a dict with a `data` list yields rows; a failure or any other answer yields none. */
  function CatalogModels(catalog: Catalog, sizes: map<string, nat>): (r: seq<ModelDescriptor>)
    ensures !catalog.CatalogData? ==> r == []
  {
    if catalog.CatalogData? then DescribeAll(catalog.data, sizes) else []
  }

  /** Every catalog entry with an id or a name gives exactly one row, so none is lost. */
  lemma {:induction false} DescribeAllKeepsNamed(data: seq<CatalogEntry>, sizes: map<string, nat>, j: nat)
    requires j < |data| && (data[j].id != "" || data[j].name != "")
    ensures Describe(data[j], sizes).value in DescribeAll(data, sizes)
  {
    if j < |data| - 1 {
      DescribeAllKeepsNamed(data[..|data| - 1], sizes, j);
      assert data[..|data| - 1][j] == data[j];
    }
  }

  /** Every row comes from some catalog entry. */
  lemma {:induction false} DescribeAllFromCatalog(data: seq<CatalogEntry>, sizes: map<string, nat>, d: ModelDescriptor)
    requires d in DescribeAll(data, sizes)
    ensures exists j :: 0 <= j < |data| && Describe(data[j], sizes) == Some(d)
  {
    var init := data[..|data| - 1];
    if d in DescribeAll(init, sizes) {
      DescribeAllFromCatalog(init, sizes, d);
      var j :| 0 <= j < |init| && Describe(init[j], sizes) == Some(d);
      assert data[j] == init[j];
    }
  }

  /**
   * `_refresh_models` without its widgets: the size table (left empty when that
   * request fails), then one row per catalog entry that has an id or a name.
   */
  method RefreshModels(sizeListing: SizeListing, catalog: Catalog) returns (models: seq<ModelDescriptor>)
    ensures models == CatalogModels(catalog, Sizes(sizeListing))
  {
    var sizes := BuildSizesMap(sizeListing);
    models := [];
    if catalog.CatalogData? {
      var data := catalog.data;
      var i := 0;
      while i < |data|
        invariant 0 <= i <= |data|
        invariant models == DescribeAll(data[..i], sizes)
      {
        assert data[..i + 1][..i] == data[..i];
        var m := data[i];
        var mid := if m.id != "" then m.id else m.name;
        var displayName := if m.name != "" then m.name else mid;
        if mid != "" {
          var size := if mid in sizes then Some(sizes[mid]) else None;
          models := models + [ModelDescriptor(mid, displayName, size)];
        }
        i := i + 1;
      }
      assert data[..i] == data;
    }
  }

  /** No id appears twice. */
  predicate Distinct(ids: seq<string>) {
    forall i, j :: 0 <= i < j < |ids| ==> ids[i] != ids[j]
  }

  /**
   * The ids the list offers for selection: the check-box table is keyed by id, so a
   * repeated id keeps its first position and appears once.
   */
  function Registered(ids: seq<string>): (r: seq<string>)
    ensures Distinct(r)
    ensures forall x :: x in r <==> x in ids
  {
    if ids == [] then []
    else
      var r := Registered(ids[..|ids| - 1]);
      assert forall x :: x in ids <==> x in ids[..|ids| - 1] || x == ids[|ids| - 1];
      if ids[|ids| - 1] in r then r else r + [ids[|ids| - 1]]
  }

  /** The position at which `x` first occurs in `ids`. */
  function FirstIndex(ids: seq<string>, x: string): (i: nat)
    requires x in ids
    ensures i < |ids| && ids[i] == x && x !in ids[..i]
  {
    if ids[0] == x then 0
    else
      var i := 1 + FirstIndex(ids[1..], x);
      assert ids[..i] == [ids[0]] + ids[1..][..i - 1];
      i
  }

  /** A position holding `x` with no earlier `x` is the first occurrence. */
  lemma FirstIndexUnique(ids: seq<string>, x: string, i: nat)
    requires i < |ids| && ids[i] == x && x !in ids[..i]
    ensures FirstIndex(ids, x) == i
  {
  }

  /** Appending an id moves no first occurrence, and a new id first occurs at the end. */
  lemma FirstIndexSnoc(ids: seq<string>, y: string, x: string)
    requires x in ids + [y]
    ensures x in ids ==> FirstIndex(ids + [y], x) == FirstIndex(ids, x)
    ensures x !in ids ==> FirstIndex(ids + [y], x) == |ids|
  {
    var s := ids + [y];
    if x in ids {
      var f := FirstIndex(ids, x);
      assert s[..f] == ids[..f];
      FirstIndexUnique(s, x, f);
    } else {
      assert x == y && s[..|ids|] == ids;
      FirstIndexUnique(s, x, |ids|);
    }
  }

  /** Every id of `r` occurs in `ids`, and `r` lists them in the order of their first occurrence there. */
  predicate InFirstOrder(r: seq<string>, ids: seq<string>) {
    && (forall x :: x in r ==> x in ids)
    && forall k, l :: 0 <= k < l < |r| ==> FirstIndex(ids, r[k]) < FirstIndex(ids, r[l])
  }

  /**
   * The check-box table lists the ids in the order they were first inserted: each
   * id comes before every id whose first occurrence in the list is later.
   */
  lemma {:induction false} RegisteredInOrder(ids: seq<string>)
    ensures InFirstOrder(Registered(ids), ids)
  {
    if ids != [] {
      var init := ids[..|ids| - 1];
      var y := ids[|ids| - 1];
      assert ids == init + [y];
      var r0 := Registered(init);
      RegisteredInOrder(init);
      var r := Registered(ids);
      assert r == if y in r0 then r0 else r0 + [y];
      forall k, l | 0 <= k < l < |r|
        ensures FirstIndex(ids, r[k]) < FirstIndex(ids, r[l])
      {
        assert r[k] == r0[k] && r0[k] in r0 && r0[k] in init;
        FirstIndexSnoc(init, y, r[k]);
        FirstIndexSnoc(init, y, r[l]);
        if l < |r0| {
          assert r[l] == r0[l] && r0[l] in r0 && r0[l] in init;
          assert FirstIndex(init, r0[k]) < FirstIndex(init, r0[l]);
        } else {
          assert r[l] == y && y !in init;
          assert FirstIndex(init, r0[k]) < |init|;
        }
      }
    }
  }

  /** The ticked ids, in list order: what `_run_batch` visits. */
  function Selected(registered: seq<string>, ticked: string -> bool): (r: seq<string>)
    ensures forall x :: x in r <==> x in registered && ticked(x)
    ensures |r| <= |registered|
  {
    if registered == [] then []
    else
      var r := Selected(registered[..|registered| - 1], ticked);
      var x := registered[|registered| - 1];
      assert forall y :: y in registered <==> y in registered[..|registered| - 1] || y == x;
      if ticked(x) then r + [x] else r
  }

  /** `a` is `b` with some entries left out and the others kept in their order. */
  predicate Subsequence(a: seq<string>, b: seq<string>)
    decreases |b|
  {
    if a == [] then true
    else if b == [] then false
    else if a[|a| - 1] == b[|b| - 1] then Subsequence(a[..|a| - 1], b[..|b| - 1])
    else Subsequence(a, b[..|b| - 1])
  }

  /** The selection keeps the order of the list: the comprehension walks it front to back. */
  lemma {:induction false} SelectedInOrder(registered: seq<string>, ticked: string -> bool)
    ensures Subsequence(Selected(registered, ticked), registered)
  {
    if registered != [] {
      var init := registered[..|registered| - 1];
      var x := registered[|registered| - 1];
      var r := Selected(init, ticked);
      SelectedInOrder(init, ticked);
      if ticked(x) {
        assert (r + [x])[..|r|] == r;
      } else if r != [] {
        assert r[|r| - 1] in r;
      }
    }
  }

  /** A selection taken from the registered ids names each model once. */
  lemma {:induction false} SelectedDistinct(registered: seq<string>, ticked: string -> bool)
    requires Distinct(registered)
    ensures Distinct(Selected(registered, ticked))
  {
    if registered != [] {
      var init := registered[..|registered| - 1];
      SelectedDistinct(init, ticked);
      var r := Selected(init, ticked);
      var x := registered[|registered| - 1];
      assert x !in init by {
        forall i | 0 <= i < |init|
          ensures init[i] != x
        {
          assert init[i] == registered[i];
        }
      }
      assert x !in r;
      if ticked(x) {
        var s := r + [x];
        assert Selected(registered, ticked) == s;
        forall i, j | 0 <= i < j < |s|
          ensures s[i] != s[j]
        {
          if j < |r| {
            assert s[i] == r[i] && s[j] == r[j];
          } else {
            assert s[i] == r[i] && r[i] in r && s[j] == x;
          }
        }
      }
    }
  }
}
