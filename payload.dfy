/** The request body sent for one property: a fixed, ordered batch of GraphQL
    operations, each bound to the property's id (`get_payload`). The serialisation by
    `json.dumps` is not modelled; the batch is kept as a list of records. */
module Payload {
  import opened Python

  /** The query document of each operation, treated as an opaque constant text. */
  datatype Query =
    | AmenitiesInfoQuery
    | UnitMixDetailQuery
    | AboutInfoQuery
    | LocationInfoQuery
    | CompsContextQuery
    | ContactsDetailQuery
    | PropertyInfoQuery

  /** The `variables` object: always `propertyId`; `showOnlyActual` and `currencyCode`
      only where the operation carries them. */
  datatype Variables = Variables(propertyId: int, showOnlyActual: Option<bool>, currencyCode: Option<string>)

  datatype Operation = Operation(operationName: string, query: Query, variables: Variables)

  /** The operation names, in the order the batch lists them. */
  const OperationNames: seq<string> :=
    ["Amenities_Info", "UnitMix_Detail", "About_Info", "Location_Info",
     "getCompsContext", "ContactsDetail", "getPropertyInfo"]

  /** The positions in the batch (and hence in the response list) that the parser reads. */
  const AmenitiesSlot: nat := 0
  const UnitMixSlot: nat := 1
  const ContactsSlot: nat := 5
  const PropertyInfoSlot: nat := 6

  function Plain(propId: int): Variables
  {
    Variables(propId, None, None)
  }

  /** `get_payload` once `propId` is an integer. */
  function BuildPayload(propId: int): (ops: seq<Operation>)
    ensures |ops| == |OperationNames| == 7
    ensures forall i :: 0 <= i < |ops| ==> ops[i].operationName == OperationNames[i]
    ensures forall i :: 0 <= i < |ops| ==> ops[i].variables.propertyId == propId
    ensures forall i :: 0 <= i < |ops| ==>
              ops[i].variables.currencyCode == (if i == PropertyInfoSlot then Some("USD") else None)
    ensures forall i :: 0 <= i < |ops| ==>
              ops[i].variables.showOnlyActual == (if i == UnitMixSlot then Some(false) else None)
  {
    [Operation("Amenities_Info", AmenitiesInfoQuery, Plain(propId)),
     Operation("UnitMix_Detail", UnitMixDetailQuery, Variables(propId, Some(false), None)),
     Operation("About_Info", AboutInfoQuery, Plain(propId)),
     Operation("Location_Info", LocationInfoQuery, Plain(propId)),
     Operation("getCompsContext", CompsContextQuery, Plain(propId)),
     Operation("ContactsDetail", ContactsDetailQuery, Plain(propId)),
     Operation("getPropertyInfo", PropertyInfoQuery, Variables(propId, None, Some("USD")))]
  }

  /** `get_payload(propId)` called with the id as text (the reissue path): `int(propId)`
      raises ValueError on text that is not an integer. */
  function PayloadFor(propId: string): (r: Result<seq<Operation>>)
    ensures r.Raise? <==> IntOfString(propId).Raise?
    ensures r.Raise? ==> r.error == ValueError
    ensures r.Ok? ==> r.value == BuildPayload(IntOfString(propId).value)
  {
    var n :- IntOfString(propId);
    Ok(BuildPayload(n))
  }

  /** The id written as text and read back gives the payload built from the id itself. */
  lemma PayloadForStrOfInt(n: int)
    ensures PayloadFor(StrOfInt(n)) == Ok(BuildPayload(n))
  {
    IntOfStrOfInt(n);
  }

  /** The payload determines the property it was built for. */
  lemma {:induction false} BuildPayloadInjective(m: int, n: int)
    requires BuildPayload(m) == BuildPayload(n)
    ensures m == n
  {
    assert BuildPayload(m)[0].variables.propertyId == m;
  }

  /** The parser reads the response list by position (amenities at 0, unit mix at 1,
      contacts at 5, property details at 6); those positions hold the matching
      operations of the batch, and the batch has exactly seven of them. */
  lemma ParserSlotsMatchPayload(n: int)
    ensures var ops := BuildPayload(n);
            && ops[AmenitiesSlot].operationName == "Amenities_Info"
            && ops[UnitMixSlot].operationName == "UnitMix_Detail"
            && ops[ContactsSlot].operationName == "ContactsDetail"
            && ops[PropertyInfoSlot].operationName == "getPropertyInfo"
            && PropertyInfoSlot == |ops| - 1
  {
  }
}
