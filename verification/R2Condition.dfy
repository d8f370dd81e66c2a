/** Conditional requests on stored objects, as the R2 facade evaluates them and as section 13.2.2 of
    RFC 9110 orders them. */
module R2Condition {
  import opened Options

  /** One validator of an If-Match or If-None-Match list. */
  datatype EtagMatch = Wildcard | Strong(value: string) | Weak(value: string)

  datatype Condition = Condition(
    etagMatches: seq<EtagMatch>,
    etagDoesNotMatch: seq<EtagMatch>,
    uploadedBefore: Option<int>,
    uploadedAfter: Option<int>,
    secondsGranularity: bool,
    httpHeaders: bool)

  predicate StrongMatches(m: EtagMatch, etag: string) {
    match m
    case Wildcard => true
    case Strong(value) => value == etag
    case Weak(_) => false
  }

  predicate WeakMatches(m: EtagMatch, etag: string) {
    match m
    case Wildcard => true
    case Strong(value) => value == etag
    case Weak(value) => value == etag
  }

  /** Milliseconds, or whole seconds rounded down. */
  function CompareTime(millis: int, seconds: bool): int {
    if seconds then millis / 1000 else millis
  }

  predicate AnyStrong(list: seq<EtagMatch>, etag: string) {
    exists i | 0 <= i < |list| :: StrongMatches(list[i], etag)
  }

  predicate NoneWeak(list: seq<EtagMatch>, etag: string) {
    forall i | 0 <= i < |list| :: !WeakMatches(list[i], etag)
  }

  predicate MatchesObject(c: Condition, etag: string, uploaded: int) {
    var time := CompareTime(uploaded, c.secondsGranularity);
    && (c.etagMatches == [] || AnyStrong(c.etagMatches, etag))
    && NoneWeak(c.etagDoesNotMatch, etag)
    && ((c.httpHeaders && c.etagMatches != [])
        || c.uploadedBefore == None || time <= CompareTime(c.uploadedBefore.value, c.secondsGranularity))
    && ((c.httpHeaders && c.etagDoesNotMatch != [])
        || c.uploadedAfter == None || time > CompareTime(c.uploadedAfter.value, c.secondsGranularity))
  }

  predicate MatchesMissing(c: Condition) {
    && c.etagMatches == []
    && ((c.httpHeaders && c.etagMatches != []) || c.uploadedBefore == None)
    && ((c.httpHeaders && c.etagDoesNotMatch != []) || c.uploadedAfter == None)
  }

  // ---- The standard's procedure ----

  /** An entity tag (section 8.8.3 of RFC 9110). */
  datatype EntityTag = EntityTag(weak: bool, opaqueTag: string)

  /** Section 8.8.3.2: two tags are equivalent if both are not weak and their opaque tags match. */
  predicate StrongComparison(a: EntityTag, b: EntityTag) { !a.weak && !b.weak && a.opaqueTag == b.opaqueTag }

  /** Section 8.8.3.2: two tags are equivalent if their opaque tags match. */
  predicate WeakComparison(a: EntityTag, b: EntityTag) { a.opaqueTag == b.opaqueTag }

  /** A header's field value: the wildcard, or a list of tags. A list holding the wildcard acts as it. */
  function TagOf(m: EtagMatch): EntityTag
    requires !m.Wildcard?
  {
    EntityTag(m.Weak?, m.value)
  }

  /** The selected representation, if the target has one: a strong tag and a modification time. */
  datatype Representation = Representation(tag: EntityTag, modified: int)

  /** Section 13.1.1: If-Match is true if the wildcard is given and a representation exists, or a
      listed tag matches it by strong comparison. */
  predicate IfMatch(list: seq<EtagMatch>, current: Option<Representation>) {
    current.Some? && exists i | 0 <= i < |list| :: list[i].Wildcard? || StrongComparison(TagOf(list[i]), current.value.tag)
  }

  /** Section 13.1.2: If-None-Match is false if the wildcard is given and a representation exists, or a
      listed tag matches it by weak comparison. */
  predicate IfNoneMatch(list: seq<EtagMatch>, current: Option<Representation>) {
    current.Some? ==> forall i | 0 <= i < |list| :: !list[i].Wildcard? && !WeakComparison(TagOf(list[i]), current.value.tag)
  }

  datatype Outcome = Perform | PreconditionFailed | NotModified

  /** A time is no later than a date. A date in whole seconds stands for all of its second. */
  predicate NotLater(millis: int, date: int, seconds: bool) {
    if seconds then millis < date - date % 1000 + 1000 else millis <= date
  }

  /** Comparing rounded times is comparing with the date's whole second. */
  lemma RoundedTimesCompare(millis: int, date: int, seconds: bool)
    ensures CompareTime(millis, seconds) <= CompareTime(date, seconds) <==> NotLater(millis, date, seconds)
    ensures seconds ==> 0 <= millis - 1000 * CompareTime(millis, seconds) < 1000
  {
    assert millis == 1000 * (millis / 1000) + millis % 1000 && date == 1000 * (date / 1000) + date % 1000;
  }

  /** Section 13.2.2, steps 1 to 5, for the GET or HEAD form of a request. A date header is ignored when
      there is no modification date to compare with (sections 13.1.3 and 13.1.4). */
  function Precedence(c: Condition, current: Option<Representation>): Outcome {
    var unmodified := c.uploadedBefore.Some? && current.Some?;
    if c.etagMatches != [] then
      if IfMatch(c.etagMatches, current) then AfterStepTwo(c, current) else PreconditionFailed
    else if unmodified then
      if NotLater(current.value.modified, c.uploadedBefore.value, c.secondsGranularity)
      then AfterStepTwo(c, current) else PreconditionFailed
    else AfterStepTwo(c, current)
  }

  function AfterStepTwo(c: Condition, current: Option<Representation>): Outcome {
    if c.etagDoesNotMatch != [] then
      if IfNoneMatch(c.etagDoesNotMatch, current) then Perform else NotModified
    else if c.uploadedAfter.Some? && current.Some? then
      if NotLater(current.value.modified, c.uploadedAfter.value, c.secondsGranularity) then NotModified else Perform
    else Perform
  }

  function Stored(etag: string, uploaded: int): Option<Representation> {
    Some(Representation(EntityTag(false, etag), uploaded))
  }

  lemma ListsAgree(list: seq<EtagMatch>, etag: string, uploaded: int)
    ensures AnyStrong(list, etag) <==> IfMatch(list, Stored(etag, uploaded))
    ensures NoneWeak(list, etag) <==> IfNoneMatch(list, Stored(etag, uploaded))
  {
    assert forall i | 0 <= i < |list| ::
      StrongMatches(list[i], etag) <==> list[i].Wildcard? || StrongComparison(TagOf(list[i]), EntityTag(false, etag));
    assert forall i | 0 <= i < |list| ::
      WeakMatches(list[i], etag) <==> list[i].Wildcard? || WeakComparison(TagOf(list[i]), EntityTag(false, etag));
  }

  /** In header form the facade performs the operation on a stored object exactly when the standard
      does, for every validator list, time and granularity. */
  lemma HeadersFollowTheStandard(c: Condition, etag: string, uploaded: int)
    requires c.httpHeaders
    ensures MatchesObject(c, etag, uploaded) <==> Precedence(c, Stored(etag, uploaded)) == Perform
  {
    ListsAgree(c.etagMatches, etag, uploaded);
    ListsAgree(c.etagDoesNotMatch, etag, uploaded);
    if c.uploadedBefore.Some? { RoundedTimesCompare(uploaded, c.uploadedBefore.value, c.secondsGranularity); }
    if c.uploadedAfter.Some? { RoundedTimesCompare(uploaded, c.uploadedAfter.value, c.secondsGranularity); }
  }

  /** In header form a missing object: the facade never performs what the standard refuses, and it
      performs what the standard performs exactly when no date clause is in force. */
  lemma MissingIsStricter(c: Condition)
    requires c.httpHeaders
    ensures MatchesMissing(c) ==> Precedence(c, None) == Perform
    ensures (MatchesMissing(c) <==> Precedence(c, None) == Perform) <==>
              c.etagMatches != [] || (c.uploadedBefore == None && (c.uploadedAfter == None || c.etagDoesNotMatch != []))
  {
  }

  /** A date that the standard ignores for a missing object still makes the facade decline. */
  lemma MissingWithDateDiffers()
    ensures var c := Condition([], [], Some(0), None, true, true);
            !MatchesMissing(c) && Precedence(c, None) == Perform
  {
  }

  /** Outside header form every clause counts, and then header form is satisfied as well. */
  lemma FieldFormImpliesHeaderForm(c: Condition, etag: string, uploaded: int)
    requires !c.httpHeaders && MatchesObject(c, etag, uploaded)
    ensures MatchesObject(c.(httpHeaders := true), etag, uploaded)
    ensures Precedence(c.(httpHeaders := true), Stored(etag, uploaded)) == Perform
  {
    HeadersFollowTheStandard(c.(httpHeaders := true), etag, uploaded);
  }

  // ---- Conditions known by the tag alone ----

  /** No date clause is in force: each is absent, or ignored beside its list in header form. */
  predicate NoDateInForce(c: Condition) {
    && ((c.httpHeaders && c.etagMatches != []) || c.uploadedBefore == None)
    && ((c.httpHeaders && c.etagDoesNotMatch != []) || c.uploadedAfter == None)
  }

  /** What one object satisfies, every object with the same tag satisfies whatever its time, if and only if no
      date clause is in force. */
  lemma TagDecides(c: Condition, etag: string, uploaded: int)
    requires MatchesObject(c, etag, uploaded)
    ensures (forall time :: MatchesObject(c, etag, time)) <==> NoDateInForce(c)
  {
    if !((c.httpHeaders && c.etagMatches != []) || c.uploadedBefore == None) {
      assert !MatchesObject(c, etag, c.uploadedBefore.value + 1000);
    } else if !((c.httpHeaders && c.etagDoesNotMatch != []) || c.uploadedAfter == None) {
      assert !MatchesObject(c, etag, c.uploadedAfter.value);
    }
  }
}
