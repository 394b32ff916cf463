/** The keys under which records are cached: `cache:object:<entity>:<kind>:<argument>`,
    and the asset key `asset:<id>` outside that namespace. */
module CacheKey {
  import opened Common
  import opened Messages

  const CachePrefix: string := "cache:object"
  const CustomerPrefix: string := "customer"
  const DocumentPrefix: string := "document"
  const LimitPrefix: string := "credit_limit"
  const TransactionPrefix: string := "transaction"

  /** `<cache prefix>:<entity>:id:<s>`, the key of one record. */
  function IdKey(entity: string, s: string): string {
    CachePrefix + ":" + entity + ":id:" + s
  }

  /** `<cache prefix>:<entity>:customer:<s>:all`, the key of all of one customer's records. */
  function AllKey(entity: string, s: string): string {
    CachePrefix + ":" + entity + ":customer:" + s + ":all"
  }

  function GetCustomerCacheKeyByID(id: Uuid): string { IdKey(CustomerPrefix, id.text) }

  function GetCustomerCacheKeyByNIK(nik: string): string {
    CachePrefix + ":" + CustomerPrefix + ":nik:" + nik
  }

  function GetCustomerDocumentsCacheKey(customerId: Uuid): string { AllKey(DocumentPrefix, customerId.text) }

  function GetCustomerDocumentCacheKey(documentId: Uuid): string { IdKey(DocumentPrefix, documentId.text) }

  function GetCustomerCreditLimitsCacheKey(customerId: Uuid): string { AllKey(LimitPrefix, customerId.text) }

  function GetCreditLimitCacheKey(limitId: Uuid): string { IdKey(LimitPrefix, limitId.text) }

  function GetCustomerTransactionsCacheKey(customerId: Uuid): string { AllKey(TransactionPrefix, customerId.text) }

  function GetTransactionCacheKey(transactionId: Uuid): string { IdKey(TransactionPrefix, transactionId.text) }

  function GetAssetCacheKey(id: Uuid): string { "asset:" + id.text }

  /** Which cached object a key stands for. */
  datatype Key =
    | CustomerById(id: Uuid)
    | CustomerByNik(nik: string)
    | CustomerDocuments(customerId: Uuid)
    | Document(documentId: Uuid)
    | CustomerCreditLimits(customerId: Uuid)
    | CreditLimit(limitId: Uuid)
    | CustomerTransactions(customerId: Uuid)
    | Transaction(transactionId: Uuid)
    | Asset(assetId: Uuid)

  /** The string each builder produces for the object. */
  function Render(k: Key): string {
    match k
    case CustomerById(id) => GetCustomerCacheKeyByID(id)
    case CustomerByNik(nik) => GetCustomerCacheKeyByNIK(nik)
    case CustomerDocuments(id) => GetCustomerDocumentsCacheKey(id)
    case Document(id) => GetCustomerDocumentCacheKey(id)
    case CustomerCreditLimits(id) => GetCustomerCreditLimitsCacheKey(id)
    case CreditLimit(id) => GetCreditLimitCacheKey(id)
    case CustomerTransactions(id) => GetCustomerTransactionsCacheKey(id)
    case Transaction(id) => GetTransactionCacheKey(id)
    case Asset(id) => GetAssetCacheKey(id)
  }

  /** Splits `s` at its first colon. */
  function SplitColon(s: string): Option<(string, string)> {
    var k := FirstColon(s);
    if k < |s| then Some((s[..k], s[k + 1..])) else None
  }

  lemma {:induction false} SplitJoin(a: string, b: string)
    requires ':' !in a
    ensures SplitColon(a + ":" + b) == Some((a, b))
    decreases |a|
  {
    var s := a + ":" + b;
    if a == [] {
      assert s[0] == ':' && s[1..] == b;
    } else {
      assert s[1..] == a[1..] + ":" + b;
      SplitJoin(a[1..], b);
      assert FirstColon(s) == |a|;
      assert s[..|a|] == a && s[|a| + 1..] == b;
    }
  }

  /** Reads a key back: the namespace, the entity segment, the kind segment, then the argument. */
  function Parse(s: string): Option<Key> {
    if |s| >= 6 && s[..6] == "asset:" then Some(Asset(Uuid(s[6..])))
    else if |s| >= 13 && s[..13] == CachePrefix + ":" then
      match SplitColon(s[13..])
      case None => None
      case Some((entity, rest)) =>
        match SplitColon(rest)
        case None => None
        case Some((kind, arg)) => ParseSegments(entity, kind, arg)
    else None
  }

  /** The object named by the entity and kind segments of a cache-namespace key; a
      customer-wide key has its `:all` suffix removed from the argument. */
  function ParseSegments(entity: string, kind: string, arg: string): Option<Key> {
    if kind == "id" then IdOf(entity, Uuid(arg))
    else if kind == "nik" && entity == CustomerPrefix then Some(CustomerByNik(arg))
    else if kind == "customer" && |arg| >= 4 && arg[|arg| - 4..] == ":all" then AllOf(entity, Uuid(arg[..|arg| - 4]))
    else None
  }

  function IdOf(entity: string, id: Uuid): Option<Key> {
    if entity == CustomerPrefix then Some(CustomerById(id))
    else if entity == DocumentPrefix then Some(Document(id))
    else if entity == LimitPrefix then Some(CreditLimit(id))
    else if entity == TransactionPrefix then Some(Transaction(id))
    else None
  }

  function AllOf(entity: string, owner: Uuid): Option<Key> {
    if entity == DocumentPrefix then Some(CustomerDocuments(owner))
    else if entity == LimitPrefix then Some(CustomerCreditLimits(owner))
    else if entity == TransactionPrefix then Some(CustomerTransactions(owner))
    else None
  }

  lemma IdKeyParts(entity: string, s: string)
    requires ':' !in entity
    ensures var key := IdKey(entity, s);
            |key| >= 13 && key[..13] == CachePrefix + ":" &&
            SplitColon(key[13..]) == Some((entity, "id:" + s)) && SplitColon("id:" + s) == Some(("id", s))
  {
    var key := IdKey(entity, s);
    assert key[13..] == entity + ":" + ("id:" + s);
    SplitJoin(entity, "id:" + s);
    assert "id:" + s == "id" + ":" + s;
    SplitJoin("id", s);
  }

  lemma AllKeyParts(entity: string, s: string)
    requires ':' !in entity
    ensures var key := AllKey(entity, s);
            |key| >= 13 && key[..13] == CachePrefix + ":" &&
            SplitColon(key[13..]) == Some((entity, "customer:" + (s + ":all"))) &&
            SplitColon("customer:" + (s + ":all")) == Some(("customer", s + ":all"))
  {
    var key := AllKey(entity, s);
    assert key[13..] == entity + ":" + ("customer:" + (s + ":all"));
    SplitJoin(entity, "customer:" + (s + ":all"));
    assert "customer:" + (s + ":all") == "customer" + ":" + (s + ":all");
    SplitJoin("customer", s + ":all");
  }

  lemma NikKeyParts(nik: string)
    ensures var key := GetCustomerCacheKeyByNIK(nik);
            |key| >= 13 && key[..13] == CachePrefix + ":" &&
            SplitColon(key[13..]) == Some((CustomerPrefix, "nik:" + nik)) && SplitColon("nik:" + nik) == Some(("nik", nik))
  {
    var key := GetCustomerCacheKeyByNIK(nik);
    assert key[13..] == CustomerPrefix + ":" + ("nik:" + nik);
    SplitJoin(CustomerPrefix, "nik:" + nik);
    assert "nik:" + nik == "nik" + ":" + nik;
    SplitJoin("nik", nik);
  }

  /** A key of the cache namespace is not an asset key: they differ in their first character. */
  lemma NotAsset(s: string)
    requires |s| >= 13 && s[..13] == CachePrefix + ":"
    ensures !(|s| >= 6 && s[..6] == "asset:")
  {
    assert s[0] == s[..13][0] == 'c';
    assert "asset:"[0] == 'a';
  }

  lemma ParseIdKeys(k: Key)
    requires k.CustomerById? || k.Document? || k.CreditLimit? || k.Transaction?
    ensures Parse(Render(k)) == Some(k)
  {
    var s := Render(k);
    match k
    case CustomerById(id) => IdKeyParts(CustomerPrefix, id.text); NotAsset(s);
    case Document(id) => IdKeyParts(DocumentPrefix, id.text); NotAsset(s);
    case CreditLimit(id) => IdKeyParts(LimitPrefix, id.text); NotAsset(s);
    case Transaction(id) => IdKeyParts(TransactionPrefix, id.text); NotAsset(s);
  }

  lemma ParseAllKey(entity: string, owner: string)
    requires ':' !in entity
    ensures Parse(AllKey(entity, owner)) == AllOf(entity, Uuid(owner))
  {
    AllKeyParts(entity, owner);
    NotAsset(AllKey(entity, owner));
    var arg := owner + ":all";
    assert arg[..|arg| - 4] == owner && arg[|arg| - 4..] == ":all";
    assert ParseSegments(entity, "customer", arg) == AllOf(entity, Uuid(owner));
  }

  lemma ParseAllKeys(k: Key)
    requires k.CustomerDocuments? || k.CustomerCreditLimits? || k.CustomerTransactions?
    ensures Parse(Render(k)) == Some(k)
  {
    match k
    case CustomerDocuments(id) => ParseAllKey(DocumentPrefix, id.text);
    case CustomerCreditLimits(id) => ParseAllKey(LimitPrefix, id.text);
    case CustomerTransactions(id) => ParseAllKey(TransactionPrefix, id.text);
  }

  /** Every key reads back as the object it was built for. */
  lemma ParseRender(k: Key)
    ensures Parse(Render(k)) == Some(k)
  {
    var s := Render(k);
    match k
    case Asset(id) =>
      assert s[..6] == "asset:" && s[6..] == id.text;
    case CustomerByNik(nik) =>
      NikKeyParts(nik);
      NotAsset(s);
    case CustomerById(_) => ParseIdKeys(k);
    case Document(_) => ParseIdKeys(k);
    case CreditLimit(_) => ParseIdKeys(k);
    case Transaction(_) => ParseIdKeys(k);
    case CustomerDocuments(_) => ParseAllKeys(k);
    case CustomerCreditLimits(_) => ParseAllKeys(k);
    case CustomerTransactions(_) => ParseAllKeys(k);
  }

  /** No two cached objects share a key: each builder is injective in its argument, and keys
      of different builders never coincide. */
  lemma RenderInjective(k1: Key, k2: Key)
    ensures Render(k1) == Render(k2) ==> k1 == k2
  {
    ParseRender(k1);
    ParseRender(k2);
  }

  /** The asset key lies outside the `cache:object` namespace of the other keys. */
  lemma AssetKeyOutsideCache(id: Uuid)
    ensures var key := GetAssetCacheKey(id); !(|key| >= |CachePrefix| && key[..|CachePrefix|] == CachePrefix)
  {
    var key := GetAssetCacheKey(id);
    assert key[0] == 'a' && CachePrefix[0] == 'c';
  }

  /** `GetMultipleCustomerCacheKeys`: fills a list as long as `ids` with their id keys. */
  method GetMultipleCustomerCacheKeys(ids: seq<Uuid>) returns (keys: seq<string>)
    ensures |keys| == |ids|
    ensures forall i :: 0 <= i < |ids| ==> keys[i] == GetCustomerCacheKeyByID(ids[i])
  {
    var a := new string[|ids|];
    var i := 0;
    while i < |ids|
      invariant 0 <= i <= |ids|
      invariant forall j :: 0 <= j < i ==> a[j] == GetCustomerCacheKeyByID(ids[j])
    {
      a[i] := GetCustomerCacheKeyByID(ids[i]);
      i := i + 1;
    }
    keys := a[..];
  }

  /** `GetMultipleCreditLimitCacheKeys`: fills a list as long as `ids` with their limit keys. */
  method GetMultipleCreditLimitCacheKeys(ids: seq<Uuid>) returns (keys: seq<string>)
    ensures |keys| == |ids|
    ensures forall i :: 0 <= i < |ids| ==> keys[i] == GetCreditLimitCacheKey(ids[i])
  {
    var a := new string[|ids|];
    var i := 0;
    while i < |ids|
      invariant 0 <= i <= |ids|
      invariant forall j :: 0 <= j < i ==> a[j] == GetCreditLimitCacheKey(ids[j])
    {
      a[i] := GetCreditLimitCacheKey(ids[i]);
      i := i + 1;
    }
    keys := a[..];
  }
}
