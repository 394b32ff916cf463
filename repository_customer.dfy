/** The customer store: customer rows keyed by id and their uploaded documents. */
module CustomerRepository {
  import opened Common
  import opened Clock
  import opened Paging
  import opened CustomerEntity
  import opened Errors

  type Customers = map<Uuid, Customer>

  /** Every row is filed under its own id. */
  predicate Keyed(customers: Customers) {
    forall id :: id in customers ==> customers[id].id == id
  }

  /** No two document rows share an id (the primary key). */
  predicate DistinctDocumentIds(documents: seq<CustomerDocument>) {
    forall i, j :: 0 <= i < |documents| && 0 <= j < |documents| && documents[i].id == documents[j].id ==> i == j
  }

  /** A customer as a lookup returns it, with its preloaded documents. */
  datatype LoadedCustomer = LoadedCustomer(customer: Customer, documents: seq<CustomerDocument>)

  /** The documents of one customer, in upload order. */
  function DocumentsOf(documents: seq<CustomerDocument>, customerId: Uuid): (r: seq<CustomerDocument>)
    ensures forall d :: d in r <==> d in documents && d.customerId == customerId
  {
    Filter(documents, (d: CustomerDocument) => d.customerId == customerId)
  }

  /** The WHERE clause of `GetDocuments`: the customer, and the type when one is given. */
  predicate DocumentSelected(d: CustomerDocument, customerId: Uuid, documentType: Option<string>) {
    d.customerId == customerId && (documentType.None? || d.documentType == documentType.value)
  }

  /** The WHERE clause of `GetDocuments` applied to the table, in upload order. */
  function DocumentsMatching(documents: seq<CustomerDocument>, customerId: Uuid, documentType: Option<string>)
    : (r: seq<CustomerDocument>)
    ensures forall d :: d in r <==> d in documents && DocumentSelected(d, customerId, documentType)
  {
    Filter(documents, (d: CustomerDocument) => DocumentSelected(d, customerId, documentType))
  }

  const MsgInvalidPagination: string := "invalid pagination parameters: limit and offset must be non-negative"

  /** The early return of `GetDocuments` and `GetAllWithFilter` for an offset at or past the
      end yields exactly the page the query would have returned. */
  lemma OffsetPastEnd<T>(xs: seq<T>, limit: int, offset: int)
    requires |xs| > 0 && offset >= |xs|
    ensures Page(xs, limit, offset) == []
  {
  }

  class CustomerRepo {
    var customers: Customers
    var documents: seq<CustomerDocument>

    ghost predicate Valid()
      reads this
    {
      Keyed(customers) && DistinctDocumentIds(documents)
    }

    constructor ()
      ensures Valid() && customers == map[] && documents == []
    {
      customers := map[];
      documents := [];
    }

    /** `Create`: inserts the row; a taken id is refused by the primary key. */
    method Create(c: Customer) returns (err: Option<Error>)
      requires Valid()
      modifies this
      ensures Valid() && documents == old(documents)
      ensures c.id in old(customers) ==> err == Some(Wrapped("failed to create customer", DuplicateKey)) && customers == old(customers)
      ensures c.id !in old(customers) ==> err == None && customers == old(customers)[c.id := c]
    {
      if c.id in customers {
        return Some(Wrapped("failed to create customer", DuplicateKey));
      }
      customers := customers[c.id := c];
      err := None;
    }

    /** `GetByID`: the row with that id and its documents, or nil (no error) when there is none.
        Inactive customers are found too. */
    method GetByID(id: Uuid) returns (r: Option<LoadedCustomer>)
      requires Valid()
      ensures r.None? <==> id !in customers
      ensures r.Some? ==> r.value.customer == customers[id] && r.value.customer.id == id &&
                          r.value.documents == DocumentsOf(documents, id)
    {
      if id !in customers {
        return None;
      }
      r := Some(LoadedCustomer(customers[id], DocumentsOf(documents, id)));
    }

    /** `GetByNIK`: a row with that NIK and its documents, or nil when there is none. */
    method GetByNIK(nik: string) returns (r: Option<LoadedCustomer>)
      requires Valid()
      ensures r.None? <==> forall id :: id in customers ==> customers[id].nik != nik
      ensures r.Some? ==> r.value.customer.id in customers && customers[r.value.customer.id] == r.value.customer &&
                          r.value.customer.nik == nik &&
                          r.value.documents == DocumentsOf(documents, r.value.customer.id)
    {
      if !(exists id :: id in customers && customers[id].nik == nik) {
        return None;
      }
      var id :| id in customers && customers[id].nik == nik;
      r := Some(LoadedCustomer(customers[id], DocumentsOf(documents, id)));
    }

    /** `Update` is gorm's `Save`: the row with that id is replaced (or inserted). */
    method Update(c: Customer) returns (err: Option<Error>)
      requires Valid()
      modifies this
      ensures Valid() && err == None
      ensures customers == old(customers)[c.id := c] && documents == old(documents)
    {
      customers := customers[c.id := c];
      err := None;
    }

    /** `Delete` is a soft delete: the row stays, with `isActive` cleared (gorm's `Update`
        also stamps `updatedAt` with the clock reading `now`). */
    method Delete(id: Uuid, now: Instant) returns (err: Option<Error>)
      requires Valid()
      modifies this
      ensures Valid() && documents == old(documents)
      ensures id !in old(customers) ==>
                err == Some(Wrapped("failed to get customer for deletion", RecordNotFound)) && customers == old(customers)
      ensures id in old(customers) ==>
                err == None && customers == old(customers)[id := old(customers)[id].(isActive := false, updatedAt := now)]
      ensures customers.Keys == old(customers).Keys
    {
      if id !in customers {
        return Some(Wrapped("failed to get customer for deletion", RecordNotFound));
      }
      customers := customers[id := customers[id].(isActive := false, updatedAt := now)];
      err := None;
    }

    /** `CreateDocument`: appends the document; a taken id is refused by the primary key. */
    method CreateDocument(d: CustomerDocument) returns (err: Option<Error>)
      requires Valid()
      modifies this
      ensures Valid() && customers == old(customers)
      ensures (exists i :: 0 <= i < |old(documents)| && old(documents)[i].id == d.id) ==>
                err == Some(Wrapped("failed to create customer document", DuplicateKey)) && documents == old(documents)
      ensures (forall i :: 0 <= i < |old(documents)| ==> old(documents)[i].id != d.id) ==>
                err == None && documents == old(documents) + [d]
    {
      if exists i :: 0 <= i < |documents| && documents[i].id == d.id {
        return Some(Wrapped("failed to create customer document", DuplicateKey));
      }
      documents := documents + [d];
      err := None;
    }

    /** `GetDocuments`: refuses negative paging, counts the customer's documents (of the given
        type, if any) before paging, and returns the requested page newest first. */
    method GetDocuments(filter: DocumentFilterRepository) returns (page: seq<CustomerDocument>, count: nat, err: Option<Error>)
      ensures filter.limit < 0 || filter.offset < 0 ==>
                err == Some(Message(MsgInvalidPagination)) && page == [] && count == 0
      ensures filter.limit >= 0 && filter.offset >= 0 ==>
                var matching := DocumentsMatching(documents, filter.customerId, filter.documentType);
                && err == None
                && count == |matching|
                && page == Page(Newest(matching), filter.limit, filter.offset)
                && (count > 0 && filter.offset >= count ==> page == [])
                && |page| <= filter.limit
                && forall d :: d in page ==> d in documents && DocumentSelected(d, filter.customerId, filter.documentType)
    {
      if filter.limit < 0 || filter.offset < 0 {
        return [], 0, Some(Message(MsgInvalidPagination));
      }
      var matching := DocumentsMatching(documents, filter.customerId, filter.documentType);
      count := |matching|;
      if count > 0 && filter.offset >= count {
        OffsetPastEnd(Newest(matching), filter.limit, filter.offset);
        return [], count, None;
      }
      page := Page(Newest(matching), filter.limit, filter.offset);
      forall d | d in page ensures d in documents && DocumentSelected(d, filter.customerId, filter.documentType) {
        var k :| 0 <= k < |page| && page[k] == d;
        assert Newest(matching)[Start(filter.offset) + k] in matching;
      }
      err := None;
    }
  }
}
