/** The asset catalogue: the goods a contract can finance. */
module AssetRepository {
  import opened Common
  import opened Clock
  import opened Paging
  import opened Errors
  import opened TransactionEntity
  import opened TransactionRepository

  /** One catalogue row; `price` becomes a contract's OTR amount. */
  datatype Asset = Asset(id: Uuid, name: string, category: string, description: string, price: real,
                         createdAt: Instant, updatedAt: Instant)

  /** The filter of a catalogue listing; an empty category and non-positive price bounds
      mean "no condition". */
  datatype AssetFilterRepository = AssetFilterRepository(category: string, minPrice: real, maxPrice: real,
                                                         limit: int, offset: int)

  /** The WHERE clause `GetAllWithFilter` builds: each condition only when it is set. */
  predicate AssetSelected(a: Asset, filter: AssetFilterRepository) {
    && (filter.category == "" || a.category == filter.category)
    && (filter.minPrice <= 0.0 || a.price >= filter.minPrice)
    && (filter.maxPrice <= 0.0 || a.price <= filter.maxPrice)
  }

  predicate DistinctIds(assets: seq<Asset>) {
    forall i, j :: 0 <= i < |assets| && 0 <= j < |assets| && assets[i].id == assets[j].id ==> i == j
  }

  predicate Listed(assets: seq<Asset>, id: Uuid) {
    exists i :: 0 <= i < |assets| && assets[i].id == id
  }

  /** The contracts that finance asset `id`. */
  function UsersOf(transactions: seq<Transaction>, id: Uuid): (r: seq<Transaction>)
    ensures forall t :: t in r <==> t in transactions && t.assetId == id
  {
    Filter(transactions, (t: Transaction) => t.assetId == id)
  }

  /** The catalogue without the row of `id`. */
  function Without(assets: seq<Asset>, id: Uuid): (r: seq<Asset>)
    ensures forall a :: a in r <==> a in assets && a.id != id
    ensures !Listed(r, id)
  {
    Filter(assets, (a: Asset) => a.id != id)
  }

  /** The catalogue; `contracts` is the contract store of the same database. */
  class AssetRepo {
    var assets: seq<Asset>
    const contracts: TransactionRepo

    ghost predicate Valid()
      reads this
    {
      DistinctIds(assets)
    }

    constructor (contracts: TransactionRepo)
      ensures Valid() && assets == [] && this.contracts == contracts
    {
      assets := [];
      this.contracts := contracts;
    }

    /** `Create`: appends the row; a taken id is refused by the primary key. */
    method Create(a: Asset) returns (err: Option<Error>)
      requires Valid()
      modifies this
      ensures Valid()
      ensures Listed(old(assets), a.id) ==> err == Some(Wrapped("failed to create asset", DuplicateKey)) && assets == old(assets)
      ensures !Listed(old(assets), a.id) ==> err == None && assets == old(assets) + [a]
    {
      if exists i :: 0 <= i < |assets| && assets[i].id == a.id {
        return Some(Wrapped("failed to create asset", DuplicateKey));
      }
      assets := assets + [a];
      err := None;
    }

    /** `GetByID`: the row with that id, or nil (no error) when there is none. */
    method GetByID(id: Uuid) returns (r: Option<Asset>)
      ensures r.None? <==> !Listed(assets, id)
      ensures r.Some? ==> r.value in assets && r.value.id == id
    {
      if !(exists i :: 0 <= i < |assets| && assets[i].id == id) {
        return None;
      }
      var i :| 0 <= i < |assets| && assets[i].id == id;
      r := Some(assets[i]);
    }

    /** `GetAllWithFilter`: refuses negative paging, counts the selected rows before paging,
        and returns the requested page newest first. */
    method GetAllWithFilter(filter: AssetFilterRepository) returns (page: seq<Asset>, count: nat, err: Option<Error>)
      ensures filter.limit < 0 || filter.offset < 0 ==>
                err == Some(Message("invalid pagination parameters: limit and offset must be non-negative")) &&
                page == [] && count == 0
      ensures filter.limit >= 0 && filter.offset >= 0 ==>
                var matching := Filter(assets, (a: Asset) => AssetSelected(a, filter));
                && err == None
                && count == |matching|
                && page == Page(Newest(matching), filter.limit, filter.offset)
                && (count > 0 && filter.offset >= count ==> page == [])
                && |page| <= filter.limit
                && forall a :: a in page ==> a in assets && AssetSelected(a, filter)
    {
      if filter.limit < 0 || filter.offset < 0 {
        return [], 0, Some(Message("invalid pagination parameters: limit and offset must be non-negative"));
      }
      var matching := Filter(assets, (a: Asset) => AssetSelected(a, filter));
      count := |matching|;
      if count > 0 && filter.offset >= count {
        return [], count, None;
      }
      page := Page(Newest(matching), filter.limit, filter.offset);
      forall a | a in page ensures a in assets && AssetSelected(a, filter) {
        var k :| 0 <= k < |page| && page[k] == a;
        assert Newest(matching)[Start(filter.offset) + k] in matching;
      }
      err := None;
    }

    /** `Update` is gorm's `Save`: the row with that id is replaced, or appended when there is none. */
    method Update(a: Asset) returns (err: Option<Error>)
      requires Valid()
      modifies this
      ensures Valid() && err == None
      ensures |assets| == |old(assets)| + (if Listed(old(assets), a.id) then 0 else 1)
      ensures forall i :: 0 <= i < |old(assets)| ==> assets[i] == if old(assets)[i].id == a.id then a else old(assets)[i]
      ensures !Listed(old(assets), a.id) ==> assets == old(assets) + [a]
    {
      if exists i :: 0 <= i < |assets| && assets[i].id == a.id {
        var i :| 0 <= i < |assets| && assets[i].id == a.id;
        assets := assets[i := a];
      } else {
        assets := assets + [a];
      }
      err := None;
    }

    /** `Delete`: a missing asset, or one any contract finances, stays; otherwise its row goes. */
    method Delete(id: Uuid) returns (err: Option<Error>)
      requires Valid()
      modifies this
      ensures Valid()
      ensures !Listed(old(assets), id) ==> err == Some(Message("asset not found")) && assets == old(assets)
      ensures Listed(old(assets), id) && |UsersOf(contracts.transactions, id)| > 0 ==>
                err == Some(AssetInUse(|UsersOf(contracts.transactions, id)|)) && assets == old(assets)
      ensures Listed(old(assets), id) && |UsersOf(contracts.transactions, id)| == 0 ==>
                err == None && assets == Without(old(assets), id)
      ensures err.None? ==> forall t :: t in contracts.transactions ==> t.assetId != id
    {
      if !(exists i :: 0 <= i < |assets| && assets[i].id == id) {
        return Some(Message("asset not found"));
      }
      var users := UsersOf(contracts.transactions, id);
      if |users| > 0 {
        return Some(AssetInUse(|users|));
      }
      assets := Without(assets, id);
      assert DistinctIds(assets) by {
        DistinctFilter(old(assets), (a: Asset) => a.id != id);
      }
      err := None;
    }
  }

  /** Keeping some rows of a catalogue with distinct ids keeps the ids distinct. */
  lemma {:induction false} DistinctFilter(assets: seq<Asset>, keep: Asset -> bool)
    requires DistinctIds(assets)
    ensures DistinctIds(Filter(assets, keep))
  {
    if assets != [] {
      var rest := assets[1..];
      assert DistinctIds(rest) by {
        forall i, j | 0 <= i < |rest| && 0 <= j < |rest| && rest[i].id == rest[j].id ensures i == j {
          assert assets[i + 1].id == assets[j + 1].id;
        }
      }
      DistinctFilter(rest, keep);
      var tail := Filter(rest, keep);
      if keep(assets[0]) {
        var r := [assets[0]] + tail;
        forall i, j | 0 <= i < |r| && 0 <= j < |r| && r[i].id == r[j].id ensures i == j {
          if i > 0 && j > 0 {
            assert tail[i - 1].id == tail[j - 1].id;
          }
        }
      }
    }
  }
}
