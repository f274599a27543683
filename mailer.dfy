/** `getEmailData`: the normaliser of e-mail recipients before sending. */
module Mailer {
  import opened Wrappers

  /** A recipient as the sender library takes it: `{ name?, email }`. */
  datatype NameEmail = NameEmail(name: Option<string>, email: string)

  /** An `EmailData`: a bare address or a recipient record. */
  datatype EmailData = Address(address: string) | Record(record: NameEmail)

  /** What the normaliser is given: nothing, one `EmailData`, or a list. */
  datatype EmailInput = Missing | One(data: EmailData) | Many(list: seq<EmailData>)

  /** What it returns when not `undefined`: one record, or a list whose
      elements are `undefined` where the element was an empty address. */
  datatype EmailOutput = Single(one: NameEmail) | List(items: seq<Option<NameEmail>>)

  /** JavaScript truthiness of the input: only a missing value and the empty
      string are falsy; records and lists, even empty ones, are truthy. */
  predicate Truthy(email: EmailInput) {
    !(email.Missing? || email == One(Address("")))
  }

  /** `getEmailData(email, isArray)` */
  function GetEmailData(email: EmailInput, isArray: bool): (r: Option<EmailOutput>)
    ensures r.None? <==> !Truthy(email)
    ensures email.One? && r.Some? ==>
              var record := if email.data.Address? then NameEmail(None, email.data.address) else email.data.record;
              r.value == if isArray then List([Some(record)]) else Single(record)
    ensures email.Many? ==> r.Some? && r.value.List? && |r.value.items| == |email.list|
    ensures email.Many? ==> forall k :: 0 <= k < |email.list| ==> r.value.items[k] == Element(email.list[k])
    decreases if email.Many? then 1 else 0
  {
    match email
    case Missing => None
    case Many(list) =>
      Some(List(seq(|list|, k requires 0 <= k < |list| => AsRecord(GetEmailData(One(list[k]), false)))))
    case One(data) =>
      if data == Address("") then None
      else
        var record := match data case Address(s) => NameEmail(None, s) case Record(n) => n;
        Some(if isArray then List([Some(record)]) else Single(record))
  }

  /** The `as TNameEmail` cast on what normalising one element gave. */
  function AsRecord(out: Option<EmailOutput>): Option<NameEmail> {
    match out
    case Some(Single(n)) => Some(n)
    case _ => None
  }

  /** What a list element becomes: `undefined` for an empty address, else
      its record. */
  function Element(data: EmailData): (r: Option<NameEmail>)
    ensures r.None? <==> data == Address("")
    ensures data.Address? && data.address != "" ==> r == Some(NameEmail(None, data.address))
    ensures data.Record? ==> r == Some(data.record)
  {
    if data == Address("") then None
    else match data
      case Address(s) => Some(NameEmail(None, s))
      case Record(n) => Some(n)
  }

  /** Normalising is idempotent: a normalised recipient given again comes
      back unchanged, alone or as a list. */
  lemma NormalisedIsFixed(email: EmailInput, isArray: bool)
    requires GetEmailData(email, isArray).Some?
    ensures var out := GetEmailData(email, isArray).value;
      && (out.Single? ==> GetEmailData(One(Record(out.one)), false) == Some(out))
      && (out.List? && (forall k :: 0 <= k < |out.items| ==> out.items[k].Some?) ==>
            GetEmailData(Many(Records(out.items)), true) == Some(out))
  {
    var out := GetEmailData(email, isArray).value;
    if out.List? && (forall k :: 0 <= k < |out.items| ==> out.items[k].Some?) {
      var again := GetEmailData(Many(Records(out.items)), true).value;
      assert again.items == out.items;
    }
  }

  /** The records of a list with no `undefined` element, as inputs. */
  function Records(items: seq<Option<NameEmail>>): (r: seq<EmailData>)
    requires forall k :: 0 <= k < |items| ==> items[k].Some?
    ensures |r| == |items| && forall k :: 0 <= k < |r| ==> r[k] == Record(items[k].value)
  {
    seq(|items|, k requires 0 <= k < |items| && items[k].Some? => Record(items[k].value))
  }
}
