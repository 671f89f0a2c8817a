/** The applications service: a candidate applies once to an approved offer
    and lists their applications, newest first. The table has no unique
    constraint, so one application per candidate and offer rests on the
    service's own check. */
module Applications {
  import opened Common
  import opened Seqs
  import opened Users
  import opened Entities
  import opened Offers

  const OfferUnavailable := "Offer not found or not available"
  const AlreadyApplied := "You have already applied to this offer"

  function DifferentPairs(a: Application, b: Application): bool
  {
    a.candidateId != b.candidateId || a.offerId != b.offerId
  }

  /** At most one application per candidate and offer. */
  ghost predicate OnePerPair(applications: seq<Application>)
  {
    Pairwise(applications, DifferentPairs)
  }

  /** `findOne({ where: { candidateId, offerId } })`. */
  function FindApplication(applications: seq<Application>, candidateId: string, offerId: string): (k: Option<nat>)
    ensures k.Some? ==> k.value < |applications| && applications[k.value].candidateId == candidateId
                        && applications[k.value].offerId == offerId
    ensures k.None? <==> forall i :: 0 <= i < |applications| ==>
                           applications[i].candidateId != candidateId || applications[i].offerId != offerId
  {
    FindFirst(applications, (a: Application) => a.candidateId == candidateId && a.offerId == offerId)
  }

  /** `apply`: the offer must be approved, and not applied to yet by the
      candidate; the new application is submitted. */
  function Applied(offers: seq<Offer>, applications: seq<Application>, offerId: string, candidateId: string,
                   id: string, now: Time): Result<Application, HttpError>
  {
    if FindApproved(offers, offerId).None? then Failure(NotFound(OfferUnavailable))
    else if FindApplication(applications, candidateId, offerId).Some? then Failure(Conflict(AlreadyApplied))
    else Success(Application(id, candidateId, offerId, Submitted, now, now))
  }

  function CandidateIs(userId: string): Application -> bool
  {
    (a: Application) => a.candidateId == userId
  }

  function AppliedAt(a: Application): int
  {
    a.appliedAt
  }

  /** `findMyApplications`: the user's applications, newest first. */
  function FindMyApplications(applications: seq<Application>, userId: string): (r: seq<Application>)
    ensures SortedDesc(r, AppliedAt)
    ensures forall a :: a in r <==> a in applications && a.candidateId == userId
    ensures forall a :: a in applications ==>
              multiset(r)[a] == if a.candidateId == userId then multiset(applications)[a] else 0
  {
    var r := SortDesc(Filter(applications, CandidateIs(userId)), AppliedAt);
    forall a | a in r ensures a in applications && a.candidateId == userId {
      assert a in multiset(r);
    }
    r
  }

  // ---------------------------------------------------------------------------
  // Properties

  /** `apply` fails with NotFound exactly when no approved offer has the id,
      with Conflict exactly when the candidate already applied to it, and
      otherwise answers a submitted application of the pair. */
  lemma ApplyOutcomes(offers: seq<Offer>, applications: seq<Application>, offerId: string, candidateId: string,
                      id: string, now: Time)
    ensures var r := Applied(offers, applications, offerId, candidateId, id, now);
            (r == Failure(NotFound(OfferUnavailable)) <==>
               forall i :: 0 <= i < |offers| ==> offers[i].id != offerId || offers[i].status != Approved)
            && (r == Failure(Conflict(AlreadyApplied)) <==>
                  (exists i :: 0 <= i < |offers| && offers[i].id == offerId && offers[i].status == Approved)
                  && exists j :: 0 <= j < |applications| && applications[j].candidateId == candidateId
                                 && applications[j].offerId == offerId)
            && (r.Success? ==> r.value.status == Submitted && r.value.candidateId == candidateId
                               && r.value.offerId == offerId && r.value.id == id && r.value.appliedAt == now)
  {
    var o := FindApproved(offers, offerId);
    if o.Some? {
      assert offers[o.value].id == offerId && offers[o.value].status == Approved;
    }
    var f := FindApplication(applications, candidateId, offerId);
    if f.Some? {
      assert applications[f.value].candidateId == candidateId && applications[f.value].offerId == offerId;
    }
  }

  /** The duplicate check keeps one application per pair. */
  lemma ApplyKeepsOnePerPair(offers: seq<Offer>, applications: seq<Application>, offerId: string,
                             candidateId: string, id: string, now: Time)
    requires OnePerPair(applications)
    ensures var r := Applied(offers, applications, offerId, candidateId, id, now);
            OnePerPair(applications + if r.Success? then [r.value] else [])
  {
    var r := Applied(offers, applications, offerId, candidateId, id, now);
    var next := applications + if r.Success? then [r.value] else [];
    forall i, j | 0 <= i < j < |next| ensures DifferentPairs(next[i], next[j]) {
      assert next[i] == applications[i];
      if j < |applications| {
        assert next[j] == applications[j];
      }
    }
  }

  /** Once applied, the candidate's list shows the application, and a second
      attempt at the same offer is a Conflict that writes nothing. */
  lemma {:induction false} SecondApplicationConflicts(offers: seq<Offer>, applications: seq<Application>,
                                                      offerId: string, candidateId: string, id: string,
                                                      id2: string, now: Time, later: Time)
    requires Applied(offers, applications, offerId, candidateId, id, now).Success?
    ensures var a := Applied(offers, applications, offerId, candidateId, id, now).value;
            var next := applications + [a];
            a in FindMyApplications(next, candidateId)
            && Applied(offers, next, offerId, candidateId, id2, later) == Failure(Conflict(AlreadyApplied))
  {
    var a := Applied(offers, applications, offerId, candidateId, id, now).value;
    var next := applications + [a];
    assert next[|applications|] == a;
    assert FindApplication(next, candidateId, offerId).Some?;
    assert a in next;
  }

  // ---------------------------------------------------------------------------
  // The service

  class ApplicationsService {
    var applications: seq<Application>
    const offers: OffersService

    ghost predicate Valid()
      reads this
    {
      OnePerPair(applications)
    }

    constructor (offers: OffersService)
      ensures Valid() && applications == [] && this.offers == offers
    {
      this.offers := offers;
      applications := [];
    }

    /** `apply`, for candidates. */
    method Apply(offerId: string, user: UserRow, id: string, now: Time) returns (r: Result<Application, HttpError>)
      requires Valid()
      requires user.details.role == Candidate
      modifies this
      ensures Valid()
      ensures r == Applied(offers.offers, old(applications), offerId, user.id, id, now)
      ensures applications == old(applications) + if r.Success? then [r.value] else []
    {
      ApplyKeepsOnePerPair(offers.offers, applications, offerId, user.id, id, now);
      var offer := FindApproved(offers.offers, offerId);
      if offer.None? {
        return Failure(NotFound(OfferUnavailable));
      }
      var existing := FindApplication(applications, user.id, offerId);
      if existing.Some? {
        return Failure(Conflict(AlreadyApplied));
      }
      var application := Application(id, user.id, offerId, Submitted, now, now);
      applications := applications + [application];
      r := Success(application);
    }
  }
}
