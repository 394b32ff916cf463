/** The customer rules of the service layer: registration with a unique NIK, profile
    updates, soft deletion and document upload. */
module CustomerService {
  import opened Common
  import opened Clock
  import opened Paging
  import opened Errors
  import opened CustomerEntity
  import opened CustomerRepository

  /** No two customer rows, active or not, share a NIK. */
  predicate UniqueNik(customers: Customers) {
    forall a, b :: a in customers && b in customers && customers[a].nik == customers[b].nik ==> a == b
  }

  /** No customer has two documents of one type. */
  predicate OnePerType(documents: seq<CustomerDocument>) {
    forall i, j :: (0 <= i < |documents| && 0 <= j < |documents| &&
                    documents[i].customerId == documents[j].customerId &&
                    documents[i].documentType == documents[j].documentType) ==> i == j
  }

  /** Appending a document of a type its customer does not hold yet keeps one per type. */
  lemma OnePerTypeAppend(documents: seq<CustomerDocument>, d: CustomerDocument)
    requires OnePerType(documents)
    requires forall i :: 0 <= i < |documents| ==> !DocumentSelected(documents[i], d.customerId, Some(d.documentType))
    ensures OnePerType(documents + [d])
  {
    var all := documents + [d];
    assert forall k :: 0 <= k < |documents| ==> all[k] == documents[k];
    assert all[|documents|] == d;
  }

  /** A document as the service returns it (timestamps are formatted, and left out here). */
  datatype DocumentResponse = DocumentResponse(id: Uuid, customerId: Uuid, documentType: string, documentUrl: string)

  /** A customer as the service returns it, with the documents the lookup loaded. */
  datatype CustomerResponse = CustomerResponse(customer: Customer, documents: seq<DocumentResponse>)

  /** `toDocumentResponse`: copies the document's identifying fields. */
  function ToDocumentResponse(d: CustomerDocument): (r: DocumentResponse)
    ensures r.id == d.id && r.customerId == d.customerId && r.documentType == d.documentType && r.documentUrl == d.documentUrl
  {
    DocumentResponse(d.id, d.customerId, d.documentType, d.documentUrl)
  }

  /** `responses` are the responses of `documents`: one each, in order. */
  predicate ShowsDocuments(responses: seq<DocumentResponse>, documents: seq<CustomerDocument>) {
    |responses| == |documents| && forall k :: 0 <= k < |documents| ==> responses[k] == ToDocumentResponse(documents[k])
  }

  /** The loops of `toResponse` and `GetDocuments` that fill a response slice: one response
      per document, in order. */
  method ToDocumentResponses(documents: seq<CustomerDocument>) returns (responses: seq<DocumentResponse>)
    ensures ShowsDocuments(responses, documents)
  {
    var out := new DocumentResponse[|documents|];
    for i := 0 to |documents|
      invariant forall j :: 0 <= j < i ==> out[j] == ToDocumentResponse(documents[j])
    {
      out[i] := ToDocumentResponse(documents[i]);
    }
    responses := out[..];
  }

  /** `toResponse`: the customer's fields and one response per loaded document. */
  method ToResponse(l: LoadedCustomer) returns (r: CustomerResponse)
    ensures r.customer == l.customer && ShowsDocuments(r.documents, l.documents)
  {
    var documents := ToDocumentResponses(l.documents);
    r := CustomerResponse(l.customer, documents);
  }

  /** The row a successful registration inserts: active, stamped with the clock, and with
      every profile field taken from the request. */
  function NewCustomer(req: CreateCustomerRequest, id: Uuid, now: Instant): (c: Customer)
    ensures c.id == id && c.nik == req.nik && c.isActive
    ensures Profile(req) == UpdateCustomerRequest(c.fullName, c.legalName, c.birthPlace, c.birthDate, c.salary)
    ensures c.createdAt == now && c.updatedAt == now
  {
    Customer(id, req.nik, req.fullName, req.legalName, req.birthPlace, req.birthDate, req.salary, true, now, now)
  }

  /** The row after a profile update: the five profile fields and `updatedAt` change; the id,
      the NIK, the active flag and the creation time stay. */
  function Updated(c: Customer, req: UpdateCustomerRequest, now: Instant): (u: Customer)
    ensures u.id == c.id && u.nik == c.nik && u.isActive == c.isActive && u.createdAt == c.createdAt
    ensures req == UpdateCustomerRequest(u.fullName, u.legalName, u.birthPlace, u.birthDate, u.salary)
    ensures u.updatedAt == now
  {
    c.(fullName := req.fullName, legalName := req.legalName, birthPlace := req.birthPlace,
       birthDate := req.birthDate, salary := req.salary, updatedAt := now)
  }

  class Service {
    const repo: CustomerRepo

    ghost predicate Valid()
      reads this, repo
    {
      repo.Valid()
    }

    constructor (repo: CustomerRepo)
      requires repo.Valid()
      ensures Valid() && this.repo == repo
    {
      this.repo := repo;
    }

    /** `Create`: validates, refuses a NIK some customer (active or not) already has, and
        inserts a new active customer. `id` and `now` stand for the new id and the clock. */
    method Create(req: CreateCustomerRequest, id: Uuid, now: Instant) returns (r: Result<CustomerResponse, Error>)
      requires Valid()
      modifies repo
      ensures Valid() && repo.documents == old(repo.documents)
      ensures ValidateCreate(req) != [] ==>
                r == Failure(ValidationFailed(ValidateCreate(req))) && repo.customers == old(repo.customers)
      ensures ValidateCreate(req) == [] && (exists k :: k in old(repo.customers) && old(repo.customers)[k].nik == req.nik) ==>
                r == Failure(DuplicateNik(req.nik)) && repo.customers == old(repo.customers)
      ensures r.Success? <==> ValidateCreate(req) == [] && id !in old(repo.customers) &&
                              forall k :: k in old(repo.customers) ==> old(repo.customers)[k].nik != req.nik
      ensures r.Success? ==> repo.customers == old(repo.customers)[id := NewCustomer(req, id, now)] &&
                             r.value == CustomerResponse(NewCustomer(req, id, now), [])
      ensures r.Failure? ==> repo.customers == old(repo.customers)
      ensures UniqueNik(old(repo.customers)) ==> UniqueNik(repo.customers)
    {
      var errors := ValidateCreate(req);
      if errors != [] {
        return Failure(ValidationFailed(errors));
      }
      var existing := repo.GetByNIK(req.nik);
      if existing.Some? {
        return Failure(DuplicateNik(req.nik));
      }
      var c := NewCustomer(req, id, now);
      var err := repo.Create(c);
      if err.Some? {
        return Failure(Wrapped("failed to create customer", err.value));
      }
      r := Success(CustomerResponse(c, []));
    }

    /** `GetByID`: inactive customers are returned too. */
    method GetByID(id: Uuid) returns (r: Result<CustomerResponse, Error>)
      requires Valid()
      ensures id !in repo.customers ==> r == Failure(Message("customer not found"))
      ensures id in repo.customers ==> r.Success? && r.value.customer == repo.customers[id] &&
                                       ShowsDocuments(r.value.documents, DocumentsOf(repo.documents, id))
    {
      var found := repo.GetByID(id);
      if found.None? {
        return Failure(Message("customer not found"));
      }
      var response := ToResponse(found.value);
      r := Success(response);
    }

    /** `GetByNIK`: a NIK that is not 16 characters long is refused before any lookup. */
    method GetByNIK(nik: string) returns (r: Result<CustomerResponse, Error>)
      requires Valid()
      ensures |nik| != 16 ==> r == Failure(Message("invalid NIK format"))
      ensures |nik| == 16 && (forall k :: k in repo.customers ==> repo.customers[k].nik != nik) ==>
                r == Failure(Message("customer not found"))
      ensures r.Success? <==> |nik| == 16 && exists k :: k in repo.customers && repo.customers[k].nik == nik
      ensures r.Success? ==> r.value.customer.nik == nik && r.value.customer.id in repo.customers &&
                             repo.customers[r.value.customer.id] == r.value.customer &&
                             ShowsDocuments(r.value.documents, DocumentsOf(repo.documents, r.value.customer.id))
    {
      if |nik| != 16 {
        return Failure(Message("invalid NIK format"));
      }
      var found := repo.GetByNIK(nik);
      if found.None? {
        return Failure(Message("customer not found"));
      }
      var response := ToResponse(found.value);
      r := Success(response);
    }

    /** `Update`: validates, refuses a missing or inactive customer, and rewrites the profile. */
    method Update(id: Uuid, req: UpdateCustomerRequest, now: Instant) returns (r: Result<CustomerResponse, Error>)
      requires Valid()
      modifies repo
      ensures Valid() && repo.documents == old(repo.documents)
      ensures ValidateUpdate(req) != [] ==> r == Failure(ValidationFailed(ValidateUpdate(req)))
      ensures ValidateUpdate(req) == [] && id !in old(repo.customers) ==> r == Failure(Message("customer not found"))
      ensures ValidateUpdate(req) == [] && id in old(repo.customers) && !old(repo.customers)[id].isActive ==>
                r == Failure(Message("cannot update inactive customer"))
      ensures r.Success? <==> ValidateUpdate(req) == [] && id in old(repo.customers) && old(repo.customers)[id].isActive
      ensures r.Success? ==> repo.customers == old(repo.customers)[id := Updated(old(repo.customers)[id], req, now)] &&
                             r.value.customer == Updated(old(repo.customers)[id], req, now) &&
                             ShowsDocuments(r.value.documents, DocumentsOf(repo.documents, id))
      ensures r.Failure? ==> repo.customers == old(repo.customers)
      ensures UniqueNik(old(repo.customers)) ==> UniqueNik(repo.customers)
    {
      var errors := ValidateUpdate(req);
      if errors != [] {
        return Failure(ValidationFailed(errors));
      }
      var found := repo.GetByID(id);
      if found.None? {
        return Failure(Message("customer not found"));
      }
      if !found.value.customer.isActive {
        return Failure(Message("cannot update inactive customer"));
      }
      var c := Updated(found.value.customer, req, now);
      var err := repo.Update(c);
      assert err.None?;
      var response := ToResponse(LoadedCustomer(c, found.value.documents));
      r := Success(response);
    }

    /** `Delete`: refuses a missing or already inactive customer, then soft-deletes. */
    method Delete(id: Uuid, now: Instant) returns (err: Option<Error>)
      requires Valid()
      modifies repo
      ensures Valid() && repo.documents == old(repo.documents) && repo.customers.Keys == old(repo.customers).Keys
      ensures id !in old(repo.customers) ==> err == Some(Message("customer not found"))
      ensures id in old(repo.customers) && !old(repo.customers)[id].isActive ==> err == Some(Message("customer is already inactive"))
      ensures err.None? <==> id in old(repo.customers) && old(repo.customers)[id].isActive
      ensures err.None? ==> repo.customers == old(repo.customers)[id := old(repo.customers)[id].(isActive := false, updatedAt := now)]
      ensures err.Some? ==> repo.customers == old(repo.customers)
      ensures UniqueNik(old(repo.customers)) ==> UniqueNik(repo.customers)
    {
      var found := repo.GetByID(id);
      if found.None? {
        return Some(Message("customer not found"));
      }
      if !found.value.customer.isActive {
        return Some(Message("customer is already inactive"));
      }
      var e := repo.Delete(id, now);
      assert e.None?;
      err := None;
    }

    /** `UploadDocument`: validates, refuses a missing or inactive customer and a type the
        customer already has a document of, then stores the document. `docId` and `now` stand
        for the new id and the clock. */
    method UploadDocument(customerId: Uuid, req: UploadDocumentRequest, docId: Uuid, now: Instant)
      returns (r: Result<DocumentResponse, Error>)
      requires Valid()
      modifies repo
      ensures Valid() && repo.customers == old(repo.customers)
      ensures ValidateUpload(req) != [] ==> r == Failure(ValidationFailed(ValidateUpload(req)))
      ensures ValidateUpload(req) == [] && customerId !in repo.customers ==> r == Failure(Message("customer not found"))
      ensures ValidateUpload(req) == [] && customerId in repo.customers && !repo.customers[customerId].isActive ==>
                r == Failure(Message("cannot upload document for inactive customer"))
      ensures ValidateUpload(req) == [] && customerId in repo.customers && repo.customers[customerId].isActive &&
              (exists i :: 0 <= i < |old(repo.documents)| &&
                           DocumentSelected(old(repo.documents)[i], customerId, Some(req.documentType))) ==>
                r == Failure(DuplicateDocument(req.documentType))
      ensures r.Success? <==>
                && ValidateUpload(req) == []
                && customerId in repo.customers && repo.customers[customerId].isActive
                && forall i :: 0 <= i < |old(repo.documents)| ==>
                     !DocumentSelected(old(repo.documents)[i], customerId, Some(req.documentType)) &&
                     old(repo.documents)[i].id != docId
      ensures r.Success? ==> repo.documents == old(repo.documents) + [CustomerDocument(docId, customerId, req.documentType, req.documentUrl, now)] &&
                             r.value == ToDocumentResponse(CustomerDocument(docId, customerId, req.documentType, req.documentUrl, now))
      ensures r.Failure? ==> repo.documents == old(repo.documents)
      ensures OnePerType(old(repo.documents)) ==> OnePerType(repo.documents)
    {
      var errors := ValidateUpload(req);
      if errors != [] {
        return Failure(ValidationFailed(errors));
      }
      var found := repo.GetByID(customerId);
      if found.None? {
        return Failure(Message("customer not found"));
      }
      if !found.value.customer.isActive {
        return Failure(Message("cannot upload document for inactive customer"));
      }
      var doc := CustomerDocument(docId, customerId, req.documentType, req.documentUrl, now);
      r := StoreDocument(doc);
    }

    /** The second half of `UploadDocument`: refuses a second document of one type for one
        customer, then stores the document. */
    method StoreDocument(doc: CustomerDocument) returns (r: Result<DocumentResponse, Error>)
      requires Valid()
      modifies repo
      ensures Valid() && repo.customers == old(repo.customers)
      ensures (exists i :: 0 <= i < |old(repo.documents)| &&
                           DocumentSelected(old(repo.documents)[i], doc.customerId, Some(doc.documentType))) ==>
                r == Failure(DuplicateDocument(doc.documentType))
      ensures r.Success? <==> forall i :: 0 <= i < |old(repo.documents)| ==>
                                !DocumentSelected(old(repo.documents)[i], doc.customerId, Some(doc.documentType)) &&
                                old(repo.documents)[i].id != doc.id
      ensures r.Success? ==> repo.documents == old(repo.documents) + [doc] && r.value == ToDocumentResponse(doc)
      ensures r.Failure? ==> repo.documents == old(repo.documents)
      ensures OnePerType(old(repo.documents)) ==> OnePerType(repo.documents)
    {
      var filter := DocumentFilterRepository(doc.customerId, Some(doc.documentType), 1, 0);
      var existing, _, e := repo.GetDocuments(filter);
      assert e.None?;
      if |existing| > 0 {
        return Failure(DuplicateDocument(doc.documentType));
      }
      assert forall i :: 0 <= i < |repo.documents| ==> !DocumentSelected(repo.documents[i], doc.customerId, Some(doc.documentType));
      if OnePerType(repo.documents) {
        OnePerTypeAppend(repo.documents, doc);
      }
      var err := repo.CreateDocument(doc);
      if err.Some? {
        return Failure(Wrapped("failed to create document", err.value));
      }
      r := Success(ToDocumentResponse(doc));
    }

    /** `GetDocuments`: validates the filter, refuses a missing customer and an offset that
        wrapped negative, and returns the requested page of that customer's documents (of the
        given type, if any) newest first, with their count before paging. */
    method GetDocuments(customerId: Uuid, filter: DocumentFilterRequest)
      returns (responses: seq<DocumentResponse>, count: nat, err: Option<Error>)
      requires Valid()
      ensures ValidateFilter(filter) != [] ==> err == Some(ValidationFailed(ValidateFilter(filter))) && responses == [] && count == 0
      ensures ValidateFilter(filter) == [] && customerId !in repo.customers ==>
                err == Some(Message("customer not found")) && responses == [] && count == 0
      ensures ValidateFilter(filter) == [] && customerId in repo.customers &&
              ToDocumentFilterRepo(filter, customerId).offset < 0 ==>
                err == Some(Wrapped("failed to get documents", Message(MsgInvalidPagination))) && responses == [] && count == 0
      ensures ValidateFilter(filter) == [] && customerId in repo.customers &&
              ToDocumentFilterRepo(filter, customerId).offset >= 0 ==>
                && err == None
                && count == |DocumentsMatching(repo.documents, customerId, filter.documentType)|
                && |responses| <= filter.perPage
                && ShowsDocuments(responses, Page(Newest(DocumentsMatching(repo.documents, customerId, filter.documentType)),
                                                  filter.perPage, ToDocumentFilterRepo(filter, customerId).offset))
                && forall k :: 0 <= k < |responses| ==>
                     (responses[k].customerId == customerId &&
                      (filter.documentType.Some? ==> responses[k].documentType == filter.documentType.value))
    {
      var errors := ValidateFilter(filter);
      if errors != [] {
        return [], 0, Some(ValidationFailed(errors));
      }
      var found := repo.GetByID(customerId);
      if found.None? {
        return [], 0, Some(Message("customer not found"));
      }
      var page, e;
      page, count, e := repo.GetDocuments(ToDocumentFilterRepo(filter, customerId));
      if e.Some? {
        return [], 0, Some(Wrapped("failed to get documents", e.value));
      }
      responses := ToDocumentResponses(page);
      assert forall k :: 0 <= k < |responses| ==> page[k] in page;
      err := None;
    }
  }
}
