/** Customers, their identity documents, the requests about them and their paging filter. */
module CustomerEntity {
  import opened Common
  import opened Messages
  import opened Clock

  /** Document types are strings; only two are valid. */
  const DocumentKtp: string := "ktp"
  const DocumentSelfie: string := "selfie"

  /** `DocumentType.IsValid`. */
  predicate IsValidDocumentType(t: string)
    ensures IsValidDocumentType(t) <==> t in {DocumentKtp, DocumentSelfie}
  {
    t == DocumentKtp || t == DocumentSelfie
  }

  /** A customer row. A deleted customer stays in the table with `isActive` false. */
  datatype Customer = Customer(
    id: Uuid, nik: string, fullName: string, legalName: string, birthPlace: string,
    birthDate: Instant, salary: real, isActive: bool, createdAt: Instant, updatedAt: Instant)

  /** An uploaded identity document of a customer. */
  datatype CustomerDocument = CustomerDocument(
    id: Uuid, customerId: Uuid, documentType: string, documentUrl: string, createdAt: Instant)

  datatype CreateCustomerRequest = CreateCustomerRequest(
    nik: string, fullName: string, legalName: string, birthPlace: string, birthDate: Instant, salary: real)

  datatype UpdateCustomerRequest = UpdateCustomerRequest(
    fullName: string, legalName: string, birthPlace: string, birthDate: Instant, salary: real)

  const MsgNikLength: string := "NIK must be 16 characters"
  const MsgFullNameRequired: string := "full name is required"
  const MsgFullNameTooLong: string := "full name must not exceed 100 characters"
  const MsgLegalNameRequired: string := "legal name is required"
  const MsgLegalNameTooLong: string := "legal name must not exceed 100 characters"
  const MsgBirthPlaceRequired: string := "birth place is required"
  const MsgBirthDateRequired: string := "birth date is required"
  const MsgSalaryNotPositive: string := "salary must be greater than 0"

  /** The checks shared by create and update, in order. */
  const ProfileMessages: seq<string> := [MsgFullNameRequired, MsgFullNameTooLong, MsgLegalNameRequired,
                                         MsgLegalNameTooLong, MsgBirthPlaceRequired, MsgBirthDateRequired,
                                         MsgSalaryNotPositive]

  /** The profile fields of an update request pass every check. */
  predicate ProfileOk(r: UpdateCustomerRequest) {
    && r.fullName != "" && |r.fullName| <= 100
    && r.legalName != "" && |r.legalName| <= 100
    && r.birthPlace != ""
    && !IsZero(r.birthDate)
    && r.salary > 0.0
  }

  /** The profile checks, in order. */
  function ProfileChecks(r: UpdateCustomerRequest): seq<Check> {
    [Check(r.fullName == "", MsgFullNameRequired),
     Check(|r.fullName| > 100, MsgFullNameTooLong),
     Check(r.legalName == "", MsgLegalNameRequired),
     Check(|r.legalName| > 100, MsgLegalNameTooLong),
     Check(r.birthPlace == "", MsgBirthPlaceRequired),
     Check(IsZero(r.birthDate), MsgBirthDateRequired),
     Check(r.salary <= 0.0, MsgSalaryNotPositive)]
  }

  lemma ProfileChecksMessages(r: UpdateCustomerRequest)
    ensures MessagesOf(ProfileChecks(r)) == ProfileMessages && DistinctMessages(ProfileChecks(r))
  {
    var checks := ProfileChecks(r);
    assert forall i :: 0 <= i < |checks| ==> checks[i].message == ProfileMessages[i];
    assert MessagesOf(checks) == ProfileMessages;
    ProfileMessagesDistinct();
    DistinctByMessages(checks, ProfileMessages);
  }

  lemma ProfileMessagesDistinct()
    ensures Distinct(ProfileMessages)
  {
  }

  /** No profile message is collected exactly when the profile is acceptable. */
  lemma ProfileChecksEmpty(r: UpdateCustomerRequest)
    ensures Collect(ProfileChecks(r)) == [] <==> ProfileOk(r)
  {
    var checks := ProfileChecks(r);
    CollectEmpty(checks);
    assert ProfileOk(r) <==> (!checks[0].failed && !checks[1].failed && !checks[2].failed && !checks[3].failed &&
                              !checks[4].failed && !checks[5].failed && !checks[6].failed);
  }

  /** The name checks of `ProfileChecks` and what they contribute to the collected messages. */
  lemma ProfileChecksNames(r: UpdateCustomerRequest)
    ensures var errors := Collect(ProfileChecks(r));
            && (MsgFullNameRequired in errors <==> r.fullName == "")
            && (MsgFullNameTooLong in errors <==> |r.fullName| > 100)
            && (MsgLegalNameRequired in errors <==> r.legalName == "")
            && (MsgLegalNameTooLong in errors <==> |r.legalName| > 100)
  {
    var checks := ProfileChecks(r);
    ProfileChecksMessages(r);
    CollectHas(checks, 0); CollectHas(checks, 1); CollectHas(checks, 2); CollectHas(checks, 3);
  }

  /** The remaining checks of `ProfileChecks`; no profile check reports the NIK message. */
  lemma ProfileChecksRest(r: UpdateCustomerRequest)
    ensures var errors := Collect(ProfileChecks(r));
            && (MsgBirthPlaceRequired in errors <==> r.birthPlace == "")
            && (MsgBirthDateRequired in errors <==> IsZero(r.birthDate))
            && (MsgSalaryNotPositive in errors <==> r.salary <= 0.0)
            && MsgNikLength !in errors
  {
    var checks := ProfileChecks(r);
    ProfileChecksMessages(r);
    CollectHas(checks, 4); CollectHas(checks, 5); CollectHas(checks, 6);
    assert MsgNikLength !in ProfileMessages;
    CollectLacks(checks, MsgNikLength);
  }

  /** `UpdateCustomerRequest.Validate`. An empty name draws the "required" message only;
      a name longer than 100 characters draws the length message only. */
  function ValidateUpdate(r: UpdateCustomerRequest): (errors: seq<string>)
    ensures errors == [] <==> ProfileOk(r)
    ensures MsgFullNameRequired in errors <==> r.fullName == ""
    ensures MsgFullNameTooLong in errors <==> |r.fullName| > 100
    ensures MsgLegalNameRequired in errors <==> r.legalName == ""
    ensures MsgLegalNameTooLong in errors <==> |r.legalName| > 100
    ensures MsgBirthPlaceRequired in errors <==> r.birthPlace == ""
    ensures MsgBirthDateRequired in errors <==> IsZero(r.birthDate)
    ensures MsgSalaryNotPositive in errors <==> r.salary <= 0.0
    ensures MsgNikLength !in errors
    ensures IsSubsequence(errors, ProfileMessages)
  {
    ProfileChecksEmpty(r);
    ProfileChecksNames(r);
    ProfileChecksRest(r);
    ProfileChecksMessages(r);
    CollectOrdered(ProfileChecks(r));
    Collect(ProfileChecks(r))
  }

  /** The profile part of a create request. */
  function Profile(r: CreateCustomerRequest): UpdateCustomerRequest {
    UpdateCustomerRequest(r.fullName, r.legalName, r.birthPlace, r.birthDate, r.salary)
  }

  /** `CreateCustomerRequest.Validate`: the NIK length check, then exactly the checks of
      `UpdateCustomerRequest.Validate` on the same profile fields. Lengths count characters,
      which are Go's byte lengths for ASCII text. */
  function ValidateCreate(r: CreateCustomerRequest): (errors: seq<string>)
    ensures errors == [] <==> |r.nik| == 16 && ProfileOk(Profile(r))
    ensures MsgNikLength in errors <==> |r.nik| != 16
    ensures forall m :: m in ProfileMessages ==> (m in errors <==> m in ValidateUpdate(Profile(r)))
    ensures IsSubsequence(errors, [MsgNikLength] + ProfileMessages)
  {
    var rest := ValidateUpdate(Profile(r));
    WhenStep(|r.nik| != 16, MsgNikLength, rest, ProfileMessages);
    When(|r.nik| != 16, MsgNikLength) + rest
  }

  datatype UploadDocumentRequest = UploadDocumentRequest(documentType: string, documentUrl: string)

  const MsgDocumentTypeInvalid: string := "invalid document type, must be either 'ktp' or 'selfie'"
  const MsgUrlRequired: string := "document URL is required"
  const MsgUrlLength: string := "document URL must be between 10 and 255 characters"

  const UploadMessages: seq<string> := [MsgDocumentTypeInvalid, MsgUrlRequired, MsgUrlLength]

  /** The checks of `UploadDocumentRequest.Validate`, in order. */
  function UploadChecks(r: UploadDocumentRequest): seq<Check> {
    [Check(!IsValidDocumentType(r.documentType), MsgDocumentTypeInvalid),
     Check(r.documentUrl == "", MsgUrlRequired),
     Check(|r.documentUrl| < 10 || |r.documentUrl| > 255, MsgUrlLength)]
  }

  lemma UploadChecksMessages(r: UploadDocumentRequest)
    ensures MessagesOf(UploadChecks(r)) == UploadMessages && DistinctMessages(UploadChecks(r))
  {
    var checks := UploadChecks(r);
    assert forall i :: 0 <= i < |checks| ==> checks[i].message == UploadMessages[i];
    assert MessagesOf(checks) == UploadMessages;
    UploadMessagesDistinct();
    DistinctByMessages(checks, UploadMessages);
  }

  lemma UploadMessagesDistinct()
    ensures Distinct(UploadMessages)
  {
  }

  lemma UploadChecksCollect(r: UploadDocumentRequest)
    ensures var errors := Collect(UploadChecks(r));
            && (errors == [] <==> IsValidDocumentType(r.documentType) && 10 <= |r.documentUrl| <= 255)
            && (MsgDocumentTypeInvalid in errors <==> !IsValidDocumentType(r.documentType))
            && (MsgUrlRequired in errors <==> r.documentUrl == "")
            && (MsgUrlLength in errors <==> |r.documentUrl| < 10 || |r.documentUrl| > 255)
  {
    var checks := UploadChecks(r);
    UploadChecksMessages(r);
    CollectEmpty(checks);
    CollectHas(checks, 0); CollectHas(checks, 1); CollectHas(checks, 2);
  }

  /** `UploadDocumentRequest.Validate`. The length check also fails for an empty URL, so an
      empty URL draws both URL messages. */
  function ValidateUpload(r: UploadDocumentRequest): (errors: seq<string>)
    ensures errors == [] <==> IsValidDocumentType(r.documentType) && 10 <= |r.documentUrl| <= 255
    ensures MsgDocumentTypeInvalid in errors <==> !IsValidDocumentType(r.documentType)
    ensures MsgUrlRequired in errors <==> r.documentUrl == ""
    ensures MsgUrlLength in errors <==> |r.documentUrl| < 10 || |r.documentUrl| > 255
    ensures r.documentUrl == "" ==> MsgUrlRequired in errors && MsgUrlLength in errors
    ensures IsSubsequence(errors, UploadMessages)
  {
    UploadChecksCollect(r);
    UploadChecksMessages(r);
    CollectOrdered(UploadChecks(r));
    Collect(UploadChecks(r))
  }

  /** A query of a customer's documents; `None` type means "any type". */
  datatype DocumentFilterRequest = DocumentFilterRequest(documentType: Option<string>, page: int, perPage: int)

  datatype DocumentFilterRepository = DocumentFilterRepository(
    customerId: Uuid, documentType: Option<string>, limit: int, offset: int)

  const MsgPageTooSmall: string := "page must be greater than 0"
  const MsgPerPageTooSmall: string := "per_page must be greater than 0"
  const MsgPerPageTooLarge: string := "per_page must not exceed 100"
  const MsgInvalidType: string := "invalid document type"

  const FilterMessages: seq<string> := [MsgPageTooSmall, MsgPerPageTooSmall, MsgPerPageTooLarge, MsgInvalidType]

  predicate FilterOk(r: DocumentFilterRequest) {
    r.page >= 1 && 1 <= r.perPage <= 100 && (r.documentType.Some? ==> IsValidDocumentType(r.documentType.value))
  }

  /** The checks of `DocumentFilterRequest.Validate`, in order. */
  function FilterChecks(r: DocumentFilterRequest): seq<Check> {
    [Check(r.page < 1, MsgPageTooSmall),
     Check(r.perPage < 1, MsgPerPageTooSmall),
     Check(r.perPage > 100, MsgPerPageTooLarge),
     Check(r.documentType.Some? && !IsValidDocumentType(r.documentType.value), MsgInvalidType)]
  }

  lemma FilterChecksMessages(r: DocumentFilterRequest)
    ensures MessagesOf(FilterChecks(r)) == FilterMessages && DistinctMessages(FilterChecks(r))
  {
    var checks := FilterChecks(r);
    assert forall i :: 0 <= i < |checks| ==> checks[i].message == FilterMessages[i];
    assert MessagesOf(checks) == FilterMessages;
    FilterMessagesDistinct();
    DistinctByMessages(checks, FilterMessages);
  }

  lemma FilterMessagesDistinct()
    ensures Distinct(FilterMessages)
  {
  }

  lemma FilterChecksCollect(r: DocumentFilterRequest)
    ensures var errors := Collect(FilterChecks(r));
            && (errors == [] <==> FilterOk(r))
            && (MsgPageTooSmall in errors <==> r.page < 1)
            && (MsgPerPageTooSmall in errors <==> r.perPage < 1)
            && (MsgPerPageTooLarge in errors <==> r.perPage > 100)
            && (MsgInvalidType in errors <==> r.documentType.Some? && !IsValidDocumentType(r.documentType.value))
  {
    var checks := FilterChecks(r);
    FilterChecksMessages(r);
    CollectEmpty(checks);
    CollectHas(checks, 0); CollectHas(checks, 1); CollectHas(checks, 2); CollectHas(checks, 3);
  }

  /** `DocumentFilterRequest.Validate`. */
  function ValidateFilter(r: DocumentFilterRequest): (errors: seq<string>)
    ensures errors == [] <==> FilterOk(r)
    ensures MsgPageTooSmall in errors <==> r.page < 1
    ensures MsgPerPageTooSmall in errors <==> r.perPage < 1
    ensures MsgPerPageTooLarge in errors <==> r.perPage > 100
    ensures MsgInvalidType in errors <==> r.documentType.Some? && !IsValidDocumentType(r.documentType.value)
    ensures IsSubsequence(errors, FilterMessages)
  {
    FilterChecksCollect(r);
    FilterChecksMessages(r);
    CollectOrdered(FilterChecks(r));
    Collect(FilterChecks(r))
  }

  /** `ToDocumentFilterRepo`: keeps the customer and the type; limit `perPage` and offset
      `(page - 1) * perPage`, computed in Go's 64-bit `int`. While that product fits, page
      `page` ends after `page` full pages, and for an acceptable request the offset is
      non-negative; a large enough page wraps it. */
  function ToDocumentFilterRepo(r: DocumentFilterRequest, customerId: Uuid): (f: DocumentFilterRepository)
    ensures f.customerId == customerId && f.documentType == r.documentType && f.limit == r.perPage
    ensures f.offset == WrapInt((r.page - 1) * r.perPage)
    ensures InInt((r.page - 1) * r.perPage) ==> f.offset + f.limit == r.page * r.perPage
    ensures FilterOk(r) ==> 1 <= f.limit <= 100
    ensures FilterOk(r) && (r.page - 1) * r.perPage <= IntMax ==> f.offset >= 0
  {
    DocumentFilterRepository(customerId, r.documentType, r.perPage, WrapInt((r.page - 1) * r.perPage))
  }

  /** Page 92233720368547760 of 100 documents passes validation, and its offset wraps to a
      negative number, which the document store refuses. */
  lemma LargePageWrapsNegative(customerId: Uuid)
    ensures var r := DocumentFilterRequest(None, 92233720368547760, 100);
            ValidateFilter(r) == [] && ToDocumentFilterRepo(r, customerId).offset < 0
  {
  }
}
