/** The offers service: department chiefs create and edit their own offers,
    HR approves or declines them, and each role sees its own slice of the
    table. Role guards of the controller are preconditions here. */
module Offers {
  import opened Common
  import opened Seqs
  import opened Users
  import opened Entities

  /** `@ArrayMaxSize(3)` on the topic ids of both offer bodies. */
  const MaxTopics: nat := 3

  const NoDepartment := "You must belong to a department to create offers"
  const InvalidTopics := "One or more topic IDs are invalid"
  const OfferNotFound := "Offer not found"
  const NotYourOfferToView := "You can only view your own offers"
  const NotYourOfferToEdit := "You can only edit your own offers"

  /** The body of `create`. */
  datatype CreateOffer = CreateOffer(title: string, description: string, topicIds: seq<string>)

  /** The body of `update`; an omitted field is `None`. */
  datatype UpdateOffer = UpdateOffer(title: Option<string>, description: Option<string>,
                                     topicIds: Option<seq<string>>)

  /** What `findAll` answers per offer: non-candidates also get the number of
      applications to it. */
  datatype OfferView = OfferView(offer: Offer, applicantCount: Option<nat>)

  // ---------------------------------------------------------------------------
  // Topics

  function TopicIds(ts: seq<Topic>): (r: seq<string>)
    ensures |r| == |ts| && forall i :: 0 <= i < |ts| ==> r[i] == ts[i].id
  {
    seq(|ts|, i requires 0 <= i < |ts| => ts[i].id)
  }

  function DifferentIds(a: Topic, b: Topic): bool
  {
    a.id != b.id
  }

  /** The topic table's primary key. */
  ghost predicate TopicIdsUnique(ts: seq<Topic>)
  {
    Pairwise(ts, DifferentIds)
  }

  function ListedIn(ids: seq<string>): Topic -> bool
  {
    (t: Topic) => t.id in ids
  }

  /** `find({ where: { id: In(ids) } })`: the topic rows whose id is listed. */
  function TopicsIn(topics: seq<Topic>, ids: seq<string>): seq<Topic>
  {
    Filter(topics, ListedIn(ids))
  }

  /** The topic check of `create` and `update`: the rows found, when there are
      as many of them as ids given. */
  function ResolveTopics(topics: seq<Topic>, ids: seq<string>): Option<seq<Topic>>
  {
    var found := TopicsIn(topics, ids);
    if |found| == |ids| then Some(found) else None
  }

  /** Counting rows accepts exactly the lists that name existing topics, each
      once: a repeated id is refused like an unknown one. The topics found are
      then exactly the ones named, and they come from the table. */
  lemma {:induction false} ResolveTopicsIff(topics: seq<Topic>, ids: seq<string>)
    requires TopicIdsUnique(topics)
    ensures ResolveTopics(topics, ids).Some?
            <==> Distinct(ids) && forall i :: 0 <= i < |ids| ==> ids[i] in TopicIds(topics)
    ensures ResolveTopics(topics, ids).Some? ==>
              Elems(TopicIds(ResolveTopics(topics, ids).value)) == Elems(ids)
              && |ResolveTopics(topics, ids).value| == |ids|
              && forall t :: t in ResolveTopics(topics, ids).value ==> t in topics
  {
    var found := TopicsIn(topics, ids);
    var fids := TopicIds(found);
    var table := TopicIds(topics);
    FoundIdsDistinct(topics, ids);
    FoundIdsAreListedTableIds(topics, ids);
    ElemsCard(fids);
    ElemsCard(ids);
    assert |Elems(fids)| == |found|;
    if |found| == |ids| {
      SubsetCard(Elems(fids), Elems(ids));
      SubsetSameSize(Elems(fids), Elems(ids));
      forall i | 0 <= i < |ids| ensures ids[i] in table {
        assert ids[i] in Elems(ids);
      }
    }
    if Distinct(ids) && forall i :: 0 <= i < |ids| ==> ids[i] in table {
      assert Elems(ids) * Elems(table) == Elems(ids);
    }
  }

  /** The topics found carry distinct ids, as the table's rows do. */
  lemma FoundIdsDistinct(topics: seq<Topic>, ids: seq<string>)
    requires TopicIdsUnique(topics)
    ensures Distinct(TopicIds(TopicsIn(topics, ids)))
  {
    var found := TopicsIn(topics, ids);
    FilterPreservesPairwise(topics, ListedIn(ids), DifferentIds);
    forall i, j | 0 <= i < j < |found| ensures found[i].id != found[j].id {
      assert DifferentIds(found[i], found[j]);
    }
  }

  /** The ids of the topics found are the listed ids the table holds. */
  lemma FoundIdsAreListedTableIds(topics: seq<Topic>, ids: seq<string>)
    ensures Elems(TopicIds(TopicsIn(topics, ids))) == Elems(ids) * Elems(TopicIds(topics))
  {
    var found := TopicsIn(topics, ids);
    var fids := TopicIds(found);
    var table := TopicIds(topics);
    forall x | x in Elems(fids) ensures x in Elems(ids) && x in Elems(table) {
      var i :| 0 <= i < |fids| && fids[i] == x;
      assert found[i] in found;
      var k :| 0 <= k < |topics| && topics[k] == found[i];
      assert table[k] == x;
    }
    forall x | x in Elems(ids) && x in Elems(table) ensures x in Elems(fids) {
      var k :| 0 <= k < |table| && table[k] == x;
      assert topics[k] in topics && ListedIn(ids)(topics[k]);
      var i :| 0 <= i < |found| && found[i] == topics[k];
      assert fids[i] == x;
    }
  }

  // ---------------------------------------------------------------------------
  // The rules, on rows

  /** `!user.departmentId`: a missing or empty department. */
  predicate HasDepartment(user: UserRow)
  {
    user.details.departmentId.Some? && user.details.departmentId.value != ""
  }

  /** `create`: a pending offer of the chief's department with the topics found. */
  function Created(topics: seq<Topic>, user: UserRow, dto: CreateOffer, id: string, now: Time)
    : Result<Offer, HttpError>
  {
    if !HasDepartment(user) then Failure(BadRequest(NoDepartment))
    else match ResolveTopics(topics, dto.topicIds)
      case None => Failure(BadRequest(InvalidTopics))
      case Some(found) =>
        Success(Offer(id, dto.title, dto.description, OfferStatus.Pending, user.id, user.details.departmentId.value,
                      found, now, now))
  }

  /** A non-empty string given in an update body. */
  predicate Given(s: Option<string>)
  {
    s.Some? && s.value != ""
  }

  /** Editing resubmits a declined offer; other statuses stay. */
  function Resubmitted(s: OfferStatus): OfferStatus
  {
    if s == Declined then OfferStatus.Pending else s
  }

  /** Whether a save changes a column of the `offers` row itself; the topics
      live in the `offer_topics` join table. */
  predicate ColumnsChanged(before: Offer, after: Offer)
  {
    before.title != after.title || before.description != after.description || before.status != after.status
  }

  /** What `save` stores for an offer loaded as `before` and saved as `after`:
      an UPDATE is issued, and the `@UpdateDateColumn` takes the time, only
      when a column of the row changed; otherwise `updatedAt` stays. */
  function Stamped(before: Offer, after: Offer, now: Time): (o: Offer)
    ensures o == after.(updatedAt := o.updatedAt)
    ensures ColumnsChanged(before, after) ==> o.updatedAt == now
    ensures !ColumnsChanged(before, after) ==> o.updatedAt == before.updatedAt
  {
    after.(updatedAt := if ColumnsChanged(before, after) then now else before.updatedAt)
  }

  /** `update` applied to a loaded offer: the owner's given fields replace the
      stored ones, topic ids that resolve replace the topics, and a declined
      offer becomes pending again. */
  function Edited(topics: seq<Topic>, o: Offer, dto: UpdateOffer, user: UserRow, now: Time)
    : Result<Offer, HttpError>
  {
    if o.createdById != user.id then Failure(Forbidden(NotYourOfferToEdit))
    else
      var title := if Given(dto.title) then dto.title.value else o.title;
      var description := if Given(dto.description) then dto.description.value else o.description;
      var resolved := if dto.topicIds.None? then Some(o.topics) else ResolveTopics(topics, dto.topicIds.value);
      match resolved
      case None => Failure(BadRequest(InvalidTopics))
      case Some(ts) =>
        Success(Stamped(o, o.(title := title, description := description, topics := ts,
                              status := Resubmitted(o.status)), now))
  }

  /** `findOne({ where: { id } })`. */
  function FindOffer(offers: seq<Offer>, id: string): (k: Option<nat>)
    ensures k.Some? ==> k.value < |offers| && offers[k.value].id == id
    ensures k.Some? ==> forall j :: 0 <= j < k.value ==> offers[j].id != id
    ensures k.None? <==> forall i :: 0 <= i < |offers| ==> offers[i].id != id
  {
    FindFirst(offers, (o: Offer) => o.id == id)
  }

  /** `findOne({ where: { id, status: APPROVED } })`: the offer a candidate
      may like or apply to. */
  function FindApproved(offers: seq<Offer>, offerId: string): (k: Option<nat>)
    ensures k.Some? ==> k.value < |offers| && Available(offers[k.value], offerId)
    ensures k.None? <==> forall i :: 0 <= i < |offers| ==> !Available(offers[i], offerId)
  {
    FindFirst(offers, (o: Offer) => Available(o, offerId))
  }

  /** `update` on the table. */
  function Updated(offers: seq<Offer>, topics: seq<Topic>, id: string, dto: UpdateOffer, user: UserRow,
                  now: Time): Result<Offer, HttpError>
  {
    match FindOffer(offers, id)
    case None => Failure(NotFound(OfferNotFound))
    case Some(k) => Edited(topics, offers[k], dto, user, now)
  }

  /** `approve` and `decline` on the table: the offer takes `status`, whatever
      it had. */
  function Reviewed(offers: seq<Offer>, id: string, status: OfferStatus, now: Time): Result<Offer, HttpError>
  {
    match FindOffer(offers, id)
    case None => Failure(NotFound(OfferNotFound))
    case Some(k) => Success(Stamped(offers[k], offers[k].(status := status), now))
  }

  /** The table once `save` has written an edited or reviewed offer back. */
  function Saved(offers: seq<Offer>, id: string, r: Result<Offer, HttpError>): seq<Offer>
  {
    match FindOffer(offers, id)
    case None => offers
    case Some(k) => if r.Success? then offers[k := r.value] else offers
  }

  /** Who sees an offer: candidates only approved ones, chiefs only their own,
      HR and super admins every one. */
  predicate IsVisible(user: UserRow, o: Offer)
  {
    match user.details.role
    case Candidate => o.status == Approved
    case DeptChief => o.createdById == user.id
    case _ => true
  }

  function IsApproved(o: Offer): bool
  {
    o.status == Approved
  }

  function CreatedBy(userId: string): Offer -> bool
  {
    (o: Offer) => o.createdById == userId
  }

  function CreatedAtOf(o: Offer): int
  {
    o.createdAt
  }

  /** `order: { createdAt: 'DESC' }`. */
  function NewestFirst(offers: seq<Offer>): (r: seq<Offer>)
    ensures SortedDesc(r, CreatedAtOf) && multiset(r) == multiset(offers)
  {
    SortDesc(offers, CreatedAtOf)
  }

  function ForOffer(offerId: string): Application -> bool
  {
    (a: Application) => a.offerId == offerId
  }

  /** The `COUNT(*)` of applications per offer, zero when the offer has none. */
  function ApplicantCount(applications: seq<Application>, offerId: string): (n: nat)
    ensures n <= |applications|
  {
    |Filter(applications, ForOffer(offerId))|
  }

  /** An offer counts no applicant exactly when no application names it. */
  lemma NoApplicantIff(applications: seq<Application>, offerId: string)
    ensures ApplicantCount(applications, offerId) == 0
            <==> forall i :: 0 <= i < |applications| ==> applications[i].offerId != offerId
  {
    var mine := Filter(applications, ForOffer(offerId));
    if |mine| > 0 {
      assert mine[0] in mine;
    }
    forall i | 0 <= i < |applications| && applications[i].offerId == offerId ensures |mine| > 0 {
      assert applications[i] in applications && ForOffer(offerId)(applications[i]);
    }
  }

  /** What `findAll` answers, given the rows the role's query returned. */
  function Views(user: UserRow, listing: seq<Offer>, applications: seq<Application>): (r: seq<OfferView>)
    ensures |r| == |listing|
    ensures forall i :: 0 <= i < |r| ==> r[i].offer == listing[i]
    ensures forall i :: 0 <= i < |r| ==>
              r[i].applicantCount == if user.details.role == Candidate then None
                                     else Some(ApplicantCount(applications, listing[i].id))
  {
    if user.details.role == Candidate then seq(|listing|, i requires 0 <= i < |listing| => OfferView(listing[i], None))
    else seq(|listing|, i requires 0 <= i < |listing| =>
               OfferView(listing[i], Some(ApplicantCount(applications, listing[i].id))))
  }

  /** The rows the role's query of `findAll` returns, newest first. */
  function Listing(offers: seq<Offer>, user: UserRow): seq<Offer>
  {
    if user.details.role == Candidate then NewestFirst(Filter(offers, IsApproved))
    else if user.details.role == DeptChief then NewestFirst(Filter(offers, CreatedBy(user.id)))
    else NewestFirst(offers)
  }

  /** The role's listing holds every visible offer, as often as the table does,
      and nothing else, newest first. */
  lemma ListingIsVisibleOffers(offers: seq<Offer>, user: UserRow)
    ensures var r := Listing(offers, user);
            SortedDesc(r, CreatedAtOf)
            && multiset(r) <= multiset(offers)
            && (forall o :: o in offers ==> multiset(r)[o] == if IsVisible(user, o) then multiset(offers)[o] else 0)
            && (forall o :: o in r <==> o in offers && IsVisible(user, o))
  {
    var r := Listing(offers, user);
    if user.details.role == Candidate {
      SelectedListing(offers, user, IsApproved);
    } else if user.details.role == DeptChief {
      SelectedListing(offers, user, CreatedBy(user.id));
    } else {
      forall o | o in r ensures o in offers {
        assert o in multiset(r);
      }
      forall o | o in offers ensures o in r {
        assert o in multiset(offers);
      }
    }
  }

  /** A listing that sorts the rows a predicate selects, where the predicate
      is exactly the role's visibility, holds every visible offer as often as
      the table does and nothing else. */
  lemma SelectedListing(offers: seq<Offer>, user: UserRow, p: Offer -> bool)
    requires forall o :: IsVisible(user, o) == p(o)
    requires Listing(offers, user) == NewestFirst(Filter(offers, p))
    ensures var r := Listing(offers, user);
            SortedDesc(r, CreatedAtOf)
            && multiset(r) <= multiset(offers)
            && (forall o :: o in offers ==> multiset(r)[o] == if IsVisible(user, o) then multiset(offers)[o] else 0)
            && (forall o :: o in r <==> o in offers && IsVisible(user, o))
  {
    var f := Filter(offers, p);
    var r := NewestFirst(f);
    forall o | o in r ensures o in f {
      assert o in multiset(r);
    }
    forall o | o in f ensures o in r {
      assert o in multiset(f);
    }
  }

  /** As written: the applicant count query of `findAll` binds the placeholder
      id `'none'` when the listing is empty, which the uuid column rejects,
      so the call fails for every non-candidate that sees no offer. */
  function FindAllAsWritten(offers: seq<Offer>, user: UserRow, applications: seq<Application>)
    : Result<seq<OfferView>, HttpError>
  {
    var listing := Listing(offers, user);
    if user.details.role != Candidate && |listing| == 0 then
      Failure(InternalError("invalid input syntax for type uuid: \"none\""))
    else Success(Views(user, listing, applications))
  }

  /** A chief who has created no offer yet cannot list offers as written. */
  lemma AsWrittenFailsForChiefWithoutOffers(user: UserRow, applications: seq<Application>)
    requires user.details.role == DeptChief
    ensures FindAllAsWritten([], user, applications).Failure?
  {
  }

  /** `findAll` as evidently intended: an empty listing counts nothing and
      answers an empty list; otherwise it agrees with the code as written. */
  function FindAll(offers: seq<Offer>, user: UserRow, applications: seq<Application>): seq<OfferView>
  {
    Views(user, Listing(offers, user), applications)
  }

  /** Every offer the role may see is listed, nothing else is, newest first;
      a non-candidate also learns each offer's applicant count. */
  lemma FindAllAnswers(offers: seq<Offer>, user: UserRow, applications: seq<Application>)
    ensures var r := FindAll(offers, user, applications);
            (forall i :: 0 <= i < |r| ==> r[i].offer in offers && IsVisible(user, r[i].offer))
            && (forall o :: o in offers && IsVisible(user, o) ==> exists i :: 0 <= i < |r| && r[i].offer == o)
            && (forall i, j :: 0 <= i < j < |r| ==> r[i].offer.createdAt >= r[j].offer.createdAt)
            && (forall i :: 0 <= i < |r| ==>
                  (r[i].applicantCount.None? <==> user.details.role == Candidate)
                  && (r[i].applicantCount.Some? ==> r[i].applicantCount.value == ApplicantCount(applications, r[i].offer.id)))
  {
    var listing := Listing(offers, user);
    ListingIsVisibleOffers(offers, user);
    var r := FindAll(offers, user, applications);
    forall o | o in offers && IsVisible(user, o) ensures exists i :: 0 <= i < |r| && r[i].offer == o {
      var i :| 0 <= i < |listing| && listing[i] == o;
      assert r[i].offer == o;
    }
    forall i, j | 0 <= i < j < |r| ensures r[i].offer.createdAt >= r[j].offer.createdAt {
      assert CreatedAtOf(listing[i]) >= CreatedAtOf(listing[j]);
    }
  }

  lemma FindAllRefinesAsWritten(offers: seq<Offer>, user: UserRow, applications: seq<Application>)
    ensures var written := FindAllAsWritten(offers, user, applications);
            (written.Success? ==> written.value == FindAll(offers, user, applications))
            && (written.Failure? ==> FindAll(offers, user, applications) == [])
  {
  }

  /** `findPublic`: the approved offers, newest first. */
  function FindPublic(offers: seq<Offer>): (r: seq<Offer>)
    ensures SortedDesc(r, CreatedAtOf)
    ensures forall o :: o in r <==> o in offers && o.status == Approved
    ensures forall o :: o in offers ==> multiset(r)[o] == if o.status == Approved then multiset(offers)[o] else 0
  {
    var r := NewestFirst(Filter(offers, IsApproved));
    forall o | o in r ensures o in offers && o.status == Approved {
      assert o in multiset(r);
    }
    r
  }

  /** A candidate's listing is the public one. */
  lemma CandidateSeesPublicListing(offers: seq<Offer>, user: UserRow, applications: seq<Application>)
    requires user.details.role == Candidate
    ensures var r := FindAll(offers, user, applications);
            |r| == |FindPublic(offers)|
            && forall i :: 0 <= i < |r| ==> r[i] == OfferView(FindPublic(offers)[i], None)
  {
  }

  /** `findOne`: a candidate cannot tell a missing offer from one not approved;
      a chief is told when the offer is someone else's. */
  function FindOne(offers: seq<Offer>, id: string, user: UserRow): (r: Result<Offer, HttpError>)
    ensures r.Success? <==> FindOffer(offers, id).Some? && IsVisible(user, offers[FindOffer(offers, id).value])
    ensures r.Success? ==> r.value.id == id && r.value in offers
    ensures FindOffer(offers, id).None? ==> r == Failure(NotFound(OfferNotFound))
    ensures r.Failure? && user.details.role != DeptChief ==> r.error == NotFound(OfferNotFound)
    ensures r.Failure? && user.details.role == DeptChief && FindOffer(offers, id).Some? ==>
              r.error == Forbidden(NotYourOfferToView)
  {
    match FindOffer(offers, id)
    case None => Failure(NotFound(OfferNotFound))
    case Some(k) =>
      var o := offers[k];
      if user.details.role == Candidate && o.status != Approved then Failure(NotFound(OfferNotFound))
      else if user.details.role == DeptChief && o.createdById != user.id then Failure(Forbidden(NotYourOfferToView))
      else Success(o)
  }

  // ---------------------------------------------------------------------------
  // Properties of the rules

  /** What every stored offer keeps: at most three topics, each a row of the
      topic table. */
  ghost predicate OffersValid(offers: seq<Offer>, topics: seq<Topic>)
  {
    forall i :: 0 <= i < |offers| ==>
      |offers[i].topics| <= MaxTopics && forall t :: t in offers[i].topics ==> t in topics
  }

  /** `create` refuses a chief without a department, then a topic list that
      does not name existing topics each once; otherwise the chief's new offer
      waits for review with exactly the named topics. */
  lemma CreateOutcomes(topics: seq<Topic>, user: UserRow, dto: CreateOffer, id: string, now: Time)
    requires TopicIdsUnique(topics)
    ensures var r := Created(topics, user, dto, id, now);
            (!HasDepartment(user) ==> r == Failure(BadRequest(NoDepartment)))
            && (HasDepartment(user) ==>
                  (r.Success? <==> Distinct(dto.topicIds)
                                   && forall i :: 0 <= i < |dto.topicIds| ==> dto.topicIds[i] in TopicIds(topics)))
            && (r.Failure? && HasDepartment(user) ==> r.error == BadRequest(InvalidTopics))
            && (r.Success? ==>
                  r.value.status == OfferStatus.Pending && r.value.createdById == user.id
                  && Some(r.value.departmentId) == user.details.departmentId
                  && r.value.id == id && r.value.title == dto.title && r.value.description == dto.description
                  && Elems(TopicIds(r.value.topics)) == Elems(dto.topicIds)
                  && |r.value.topics| == |dto.topicIds|
                  && (forall t :: t in r.value.topics ==> t in topics))
  {
    ResolveTopicsIff(topics, dto.topicIds);
  }

  /** A created offer keeps the table valid when at most three ids were given. */
  lemma CreateKeepsValid(offers: seq<Offer>, topics: seq<Topic>, user: UserRow, dto: CreateOffer, id: string,
                         now: Time)
    requires OffersValid(offers, topics) && TopicIdsUnique(topics) && |dto.topicIds| <= MaxTopics
    ensures var r := Created(topics, user, dto, id, now);
            OffersValid(offers + if r.Success? then [r.value] else [], topics)
  {
    CreateOutcomes(topics, user, dto, id, now);
    var r := Created(topics, user, dto, id, now);
    var next := offers + if r.Success? then [r.value] else [];
    assert forall i :: 0 <= i < |offers| ==> next[i] == offers[i];
  }

  /** `update` by the owner: given fields replace stored ones, named topics
      replace the topics when they resolve, identity and ownership stay, and a
      declined offer goes back to pending while pending and approved stay. Any
      one else is refused without a change. */
  lemma EditOutcomes(topics: seq<Topic>, o: Offer, dto: UpdateOffer, user: UserRow, now: Time)
    requires TopicIdsUnique(topics)
    ensures var r := Edited(topics, o, dto, user, now);
            (o.createdById != user.id ==> r == Failure(Forbidden(NotYourOfferToEdit)))
            && (r.Success? <==> o.createdById == user.id
                                && (dto.topicIds.Some? ==>
                                      Distinct(dto.topicIds.value)
                                      && forall i :: 0 <= i < |dto.topicIds.value| ==>
                                           dto.topicIds.value[i] in TopicIds(topics)))
            && (r.Failure? && o.createdById == user.id ==> r.error == BadRequest(InvalidTopics))
            && (r.Success? ==>
                  r.value.id == o.id && r.value.createdById == o.createdById
                  && r.value.departmentId == o.departmentId && r.value.createdAt == o.createdAt
                  && r.value.updatedAt == (if ColumnsChanged(o, r.value) then now else o.updatedAt)
                  && (r.value.status == OfferStatus.Pending <==> o.status != Approved)
                  && (r.value.status == Approved <==> o.status == Approved)
                  && r.value.status != Declined
                  && r.value.title == (if Given(dto.title) then dto.title.value else o.title)
                  && r.value.description == (if Given(dto.description) then dto.description.value else o.description)
                  && (dto.topicIds.None? ==> r.value.topics == o.topics)
                  && (dto.topicIds.Some? ==>
                        Elems(TopicIds(r.value.topics)) == Elems(dto.topicIds.value)
                        && |r.value.topics| == |dto.topicIds.value|
                        && forall t :: t in r.value.topics ==> t in topics))
  {
    if dto.topicIds.Some? {
      ResolveTopicsIff(topics, dto.topicIds.value);
    }
  }

  /** An update writes only the offer it names and keeps the table valid. */
  lemma UpdateKeepsValid(offers: seq<Offer>, topics: seq<Topic>, id: string, dto: UpdateOffer, user: UserRow,
                         now: Time)
    requires OffersValid(offers, topics) && TopicIdsUnique(topics)
    requires dto.topicIds.Some? ==> |dto.topicIds.value| <= MaxTopics
    ensures OffersValid(Saved(offers, id, Updated(offers, topics, id, dto, user, now)), topics)
  {
    match FindOffer(offers, id)
    case None =>
    case Some(k) =>
      EditOutcomes(topics, offers[k], dto, user, now);
  }

  /** Approving or declining sets the status whatever it was and changes
      nothing else of the offer but its update time, which moves only when
      the status does; a missing offer is NotFound. */
  lemma ReviewOutcomes(offers: seq<Offer>, id: string, status: OfferStatus, now: Time)
    ensures var r := Reviewed(offers, id, status, now);
            (r.Failure? <==> forall i :: 0 <= i < |offers| ==> offers[i].id != id)
            && (r.Failure? ==> r.error == NotFound(OfferNotFound))
            && (r.Success? ==> exists k :: 0 <= k < |offers| && offers[k].id == id
                                 && r.value == offers[k].(status := status,
                                                          updatedAt := if offers[k].status != status then now
                                                                       else offers[k].updatedAt))
  {
    var r := Reviewed(offers, id, status, now);
    if r.Success? {
      var k := FindOffer(offers, id).value;
      assert offers[k].id == id;
    }
  }

  /** Approving an approved offer, or declining a declined one, writes
      nothing: a second review with the same status leaves the table as the
      first left it, update time included. */
  lemma ReviewIsIdempotent(offers: seq<Offer>, id: string, status: OfferStatus, t1: Time, t2: Time)
    ensures var once := Saved(offers, id, Reviewed(offers, id, status, t1));
            Saved(once, id, Reviewed(once, id, status, t2)) == once
  {
    var once := Saved(offers, id, Reviewed(offers, id, status, t1));
    match FindOffer(offers, id)
    case None =>
    case Some(k) =>
      SameIdsSameFind(offers, once, id);
      assert once[k].status == status;
  }

  lemma ReviewKeepsValid(offers: seq<Offer>, topics: seq<Topic>, id: string, status: OfferStatus, now: Time)
    requires OffersValid(offers, topics)
    ensures OffersValid(Saved(offers, id, Reviewed(offers, id, status, now)), topics)
  {
  }

  /** The review cycle: a declined offer its owner edits successfully is
      pending again, and leaves the public listing until it is approved. */
  lemma {:induction false} DeclinedOfferIsResubmitted(offers: seq<Offer>, topics: seq<Topic>, id: string,
                                                       dto: UpdateOffer, user: UserRow, t1: Time, t2: Time)
    requires Reviewed(offers, id, Declined, t1).Success?
    ensures var declined := Saved(offers, id, Reviewed(offers, id, Declined, t1));
            var r := Updated(declined, topics, id, dto, user, t2);
            r.Success? ==> r.value.status == OfferStatus.Pending
                           && Saved(declined, id, r)[FindOffer(offers, id).value] == r.value
                           && r.value !in FindPublic(Saved(declined, id, r))
  {
    var k := FindOffer(offers, id).value;
    var declined := Saved(offers, id, Reviewed(offers, id, Declined, t1));
    assert declined == offers[k := Stamped(offers[k], offers[k].(status := Declined), t1)];
    SameIdsSameFind(offers, declined, id);
    var r := Updated(declined, topics, id, dto, user, t2);
    if r.Success? {
      assert r == Edited(topics, declined[k], dto, user, t2);
      assert declined[k].status == Declined;
    }
  }

  /** Rewriting rows without touching ids finds the same row. */
  lemma SameIdsSameFind(a: seq<Offer>, b: seq<Offer>, id: string)
    requires |a| == |b| && forall i :: 0 <= i < |a| ==> a[i].id == b[i].id
    ensures FindOffer(a, id) == FindOffer(b, id)
  {
    var fa := FindOffer(a, id);
    var fb := FindOffer(b, id);
    if fa.Some? {
      assert b[fa.value].id == id;
    }
    if fb.Some? {
      assert a[fb.value].id == id;
    }
  }

  // ---------------------------------------------------------------------------
  // The service

  class OffersService {
    var offers: seq<Offer>
    const topics: seq<Topic>

    ghost predicate Valid()
      reads this
    {
      TopicIdsUnique(topics) && OffersValid(offers, topics)
    }

    constructor (topics: seq<Topic>)
      requires TopicIdsUnique(topics)
      ensures Valid() && offers == [] && this.topics == topics
    {
      this.topics := topics;
      offers := [];
    }

    /** `create`, for department chiefs. */
    method Create(dto: CreateOffer, user: UserRow, id: string, now: Time) returns (r: Result<Offer, HttpError>)
      requires Valid()
      requires user.details.role == DeptChief
      requires |dto.topicIds| <= MaxTopics
      modifies this
      ensures Valid()
      ensures r == Created(topics, user, dto, id, now)
      ensures offers == old(offers) + if r.Success? then [r.value] else []
    {
      CreateKeepsValid(offers, topics, user, dto, id, now);
      if user.details.departmentId.None? || user.details.departmentId.value == "" {
        return Failure(BadRequest(NoDepartment));
      }
      var found := TopicsIn(topics, dto.topicIds);
      if |found| != |dto.topicIds| {
        return Failure(BadRequest(InvalidTopics));
      }
      var offer := Offer(id, dto.title, dto.description, OfferStatus.Pending, user.id, user.details.departmentId.value,
                         found, now, now);
      offers := offers + [offer];
      r := Success(offer);
    }

    /** `update`, for department chiefs: the loaded offer is edited field by
        field and saved; a refusal saves nothing. */
    method Update(id: string, dto: UpdateOffer, user: UserRow, now: Time) returns (r: Result<Offer, HttpError>)
      requires Valid()
      requires user.details.role == DeptChief
      requires dto.topicIds.Some? ==> |dto.topicIds.value| <= MaxTopics
      modifies this
      ensures Valid()
      ensures r == Updated(old(offers), topics, id, dto, user, now)
      ensures offers == Saved(old(offers), id, r)
    {
      UpdateKeepsValid(offers, topics, id, dto, user, now);
      var found := FindOffer(offers, id);
      if found.None? {
        return Failure(NotFound(OfferNotFound));
      }
      var k := found.value;
      var offer := offers[k];
      if offer.createdById != user.id {
        return Failure(Forbidden(NotYourOfferToEdit));
      }
      if dto.title.Some? && dto.title.value != "" {
        offer := offer.(title := dto.title.value);
      }
      if dto.description.Some? && dto.description.value != "" {
        offer := offer.(description := dto.description.value);
      }
      if dto.topicIds.Some? {
        var ts := TopicsIn(topics, dto.topicIds.value);
        if |ts| != |dto.topicIds.value| {
          return Failure(BadRequest(InvalidTopics));
        }
        offer := offer.(topics := ts);
      }
      if offer.status == Declined {
        offer := offer.(status := OfferStatus.Pending);
      }
      offer := Stamped(offers[k], offer, now);
      offers := offers[k := offer];
      r := Success(offer);
    }

    /** `approve`, for HR and super admins. */
    method Approve(id: string, now: Time) returns (r: Result<Offer, HttpError>)
      requires Valid()
      modifies this
      ensures Valid()
      ensures r == Reviewed(old(offers), id, Approved, now)
      ensures offers == Saved(old(offers), id, r)
    {
      r := SetStatus(id, Approved, now);
    }

    /** `decline`, for HR and super admins. */
    method Decline(id: string, now: Time) returns (r: Result<Offer, HttpError>)
      requires Valid()
      modifies this
      ensures Valid()
      ensures r == Reviewed(old(offers), id, Declined, now)
      ensures offers == Saved(old(offers), id, r)
    {
      r := SetStatus(id, Declined, now);
    }

    method SetStatus(id: string, status: OfferStatus, now: Time) returns (r: Result<Offer, HttpError>)
      requires Valid()
      modifies this
      ensures Valid()
      ensures r == Reviewed(old(offers), id, status, now)
      ensures offers == Saved(old(offers), id, r)
    {
      ReviewKeepsValid(offers, topics, id, status, now);
      var found := FindOffer(offers, id);
      if found.None? {
        return Failure(NotFound(OfferNotFound));
      }
      var offer := offers[found.value];
      offer := Stamped(offer, offer.(status := status), now);
      offers := offers[found.value := offer];
      r := Success(offer);
    }
  }
}
