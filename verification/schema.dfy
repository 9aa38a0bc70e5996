/**
 * `updateSchema`: the merge of the content document's `business` record into
 * the page's structured-data object. The edits are made on a parsed copy that
 * is written back only when every edit succeeds, so an edit that throws leaves
 * the page's object as it was.
 */
module Schema {
  import opened JsText
  import opened Wrappers

  /**
   * The schema's `address` and `geo` objects: the properties the update writes,
   * and in `others` the ones it never touches (`@type`, `addressRegion`,
   * `addressCountry`, ...).
   */
  datatype PostalAddress = PostalAddress(
    streetAddress: JsValue, addressLocality: JsValue, postalCode: JsValue, others: map<string, JsValue>)
  datatype GeoCoordinates = GeoCoordinates(latitude: JsValue, longitude: JsValue, others: map<string, JsValue>)
  datatype HoursSpecification = HoursSpecification(dayOfWeek: JsValue, opens: JsValue, closes: JsValue)

  /**
   * The structured-data object. `address` and `geo` are `None` when the
   * property is absent or `null`; `others` holds every property the update
   * never writes (`@context`, `@type`, `image`, ...).
   */
  datatype LocalBusiness = LocalBusiness(
    name: JsValue,
    telephone: JsValue,
    url: JsValue,
    address: Option<PostalAddress>,
    geo: Option<GeoCoordinates>,
    openingHours: Option<seq<HoursSpecification>>,
    others: map<string, JsValue>)

  datatype BusinessAddress = BusinessAddress(streetAddress: JsValue, locality: JsValue, postalCode: JsValue)
  datatype BusinessGeo = BusinessGeo(lat: JsValue, lng: JsValue)
  /**
   * One entry of the opening-hours array. An entry that is a string or a number
   * has none of the three properties, so it reads as every field `Undefined`.
   */
  datatype OpeningHours = OpeningHours(days: JsValue, opens: JsValue, closes: JsValue)

  /**
   * The document's `business` record. `address` and `geo` are `Some` when the
   * property is an object; `openingHours` is `Some` when it is an array, and
   * each of its entries is `None` when it is `null` or `undefined`.
   */
  datatype Business = Business(
    name: JsValue,
    telephone: JsValue,
    url: JsValue,
    address: Option<BusinessAddress>,
    geo: Option<BusinessGeo>,
    openingHours: Option<seq<Option<OpeningHours>>>)

  /** `x || ''`. */
  function OrEmpty(x: JsValue): (r: JsValue)
    ensures r.Str?
    ensures Truthy(x) ==> r == x
    ensures !Truthy(x) ==> r == Str("")
  {
    Or(x, Str(""))
  }

  /**
   * The update throws when it writes a property of `undefined` (the business
   * has an address but the schema has no address object, or it also has
   * coordinates but the schema has no geo object), or when it reads `days`
   * of a `null` or `undefined` opening-hours entry.
   */
  predicate Throws(schema: LocalBusiness, b: Business) {
    || (b.address.Some? && (schema.address.None? || (b.geo.Some? && schema.geo.None?)))
    || (b.openingHours.Some? && exists i :: 0 <= i < |b.openingHours.value| && b.openingHours.value[i].None?)
  }

  function ToSpecification(h: OpeningHours): HoursSpecification {
    HoursSpecification(h.days, h.opens, h.closes)
  }

  /** The edits of the `if(data.business)` branch, in source order, on a schema where none of them throws. */
  function Merge(schema: LocalBusiness, b: Business): (r: LocalBusiness)
    requires !Throws(schema, b)
    ensures r.others == schema.others
    ensures r.address.Some? <==> schema.address.Some?
    ensures r.geo.Some? <==> schema.geo.Some?
    ensures r.address.Some? ==> r.address.value.others == schema.address.value.others
    ensures r.geo.Some? ==> r.geo.value.others == schema.geo.value.others
  {
    var named := schema.(name := Or(b.name, schema.name));
    var phoned := if Truthy(b.telephone) then named.(telephone := b.telephone) else named;
    var linked := if Truthy(b.url) then phoned.(url := b.url) else phoned;
    var located :=
      if b.address.Some? then
        var a := b.address.value;
        var withAddress := linked.(address := Some(linked.address.value.(
          streetAddress := OrEmpty(a.streetAddress),
          addressLocality := OrEmpty(a.locality),
          postalCode := OrEmpty(a.postalCode))));
        if b.geo.Some? then
          withAddress.(geo := Some(withAddress.geo.value.(
            latitude := OrEmpty(b.geo.value.lat),
            longitude := OrEmpty(b.geo.value.lng))))
        else
          withAddress
      else
        linked;
    match b.openingHours
    case Some(hours) =>
      located.(openingHours := Some(seq(|hours|, i requires 0 <= i < |hours| => ToSpecification(hours[i].value))))
    case None => located
  }

  /**
   * `updateSchema`: no business, or an update that throws, leaves the schema
   * as it was; otherwise the merge. A source field that is absent or falsy
   * never changes the schema's value for it, the coordinates change only
   * together with the address, and the untouched properties stay, at the top
   * level and inside `address` and `geo`.
   */
  function UpdateSchema(schema: LocalBusiness, business: Option<Business>): (r: LocalBusiness)
    ensures business.None? ==> r == schema
    ensures business.Some? && Throws(schema, business.value) ==> r == schema
    ensures r.others == schema.others
    ensures r.address.Some? <==> schema.address.Some?
    ensures r.geo.Some? <==> schema.geo.Some?
    ensures r.address.Some? ==> r.address.value.others == schema.address.value.others
    ensures r.geo.Some? ==> r.geo.value.others == schema.geo.value.others
    ensures business.None? || !Truthy(business.value.name) ==> r.name == schema.name
    ensures business.None? || !Truthy(business.value.telephone) ==> r.telephone == schema.telephone
    ensures business.None? || !Truthy(business.value.url) ==> r.url == schema.url
    ensures business.None? || business.value.address.None? ==> r.address == schema.address && r.geo == schema.geo
    ensures business.None? || business.value.openingHours.None? ==> r.openingHours == schema.openingHours
  {
    match business
    case None => schema
    case Some(b) => if Throws(schema, b) then schema else Merge(schema, b)
  }

  /**
   * What a successful update writes: a truthy name, telephone or url replaces
   * the old one; a present address sets all three address fields to strings,
   * `''` for each one the business lacks; coordinates given with an address
   * set both geo fields the same way; an opening-hours array replaces the
   * specification list entry by entry.
   */
  lemma UpdateWritesPresentFields(schema: LocalBusiness, b: Business)
    requires !Throws(schema, b)
    ensures var r := UpdateSchema(schema, Some(b));
      && (Truthy(b.name) ==> r.name == b.name)
      && (Truthy(b.telephone) ==> r.telephone == b.telephone)
      && (Truthy(b.url) ==> r.url == b.url)
      && (b.address.Some? ==>
            && r.address.Some?
            && r.address.value.streetAddress == OrEmpty(b.address.value.streetAddress)
            && r.address.value.addressLocality == OrEmpty(b.address.value.locality)
            && r.address.value.postalCode == OrEmpty(b.address.value.postalCode))
      && (b.address.Some? && b.geo.Some? ==>
            && r.geo.Some?
            && r.geo.value.latitude == OrEmpty(b.geo.value.lat)
            && r.geo.value.longitude == OrEmpty(b.geo.value.lng))
      && (b.address.Some? && b.geo.None? ==> r.geo == schema.geo)
      && (b.openingHours.Some? ==>
            && r.openingHours.Some?
            && |r.openingHours.value| == |b.openingHours.value|
            && forall i :: 0 <= i < |b.openingHours.value| ==>
                 b.openingHours.value[i].Some? &&
                 r.openingHours.value[i] == ToSpecification(b.openingHours.value[i].value))
  {
  }

  /** A `null` entry in the opening hours makes the update throw, so the whole schema stays as it was. */
  lemma NullHoursDiscardUpdate(schema: LocalBusiness, b: Business, i: int)
    requires b.openingHours.Some? && 0 <= i < |b.openingHours.value| && b.openingHours.value[i].None?
    ensures UpdateSchema(schema, Some(b)) == schema
  {
  }

  /** Applying the same business record twice gives the same schema as applying it once. */
  lemma UpdateSchemaIdempotent(schema: LocalBusiness, business: Option<Business>)
    ensures UpdateSchema(UpdateSchema(schema, business), business) == UpdateSchema(schema, business)
  {
    if business.Some? && !Throws(schema, business.value) {
      var b := business.value;
      var once := UpdateSchema(schema, business);
      assert !Throws(once, b);
      UpdateWritesPresentFields(schema, b);
      UpdateWritesPresentFields(once, b);
    }
  }
}
