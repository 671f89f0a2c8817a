/** The rows of the offer workflow tables: offers with their topics, likes and
    applications. Related rows are referred to by id; the relations TypeORM
    loads alongside (`department`, `createdBy`, `offer`) are not part of a row. */
module Entities {
  import opened Common

  datatype OfferStatus = Pending | Approved | Declined

  /** A `topics` row. */
  datatype Topic = Topic(id: string, name: string, departmentId: string)

  /** An `offers` row with the topics of its join table. */
  datatype Offer = Offer(
    id: string,
    title: string,
    description: string,
    status: OfferStatus,
    createdById: string,
    departmentId: string,
    topics: seq<Topic>,
    createdAt: Time,
    updatedAt: Time)

  /** A `likes` row (the table is unique on candidate and offer). */
  datatype Like = Like(id: string, candidateId: string, offerId: string, createdAt: Time)

  datatype ApplicationStatus = Submitted | UnderReview | Accepted | Rejected

  /** An `applications` row (the table has no uniqueness constraint). */
  datatype Application = Application(
    id: string,
    candidateId: string,
    offerId: string,
    status: ApplicationStatus,
    appliedAt: Time,
    updatedAt: Time)

  /** The offer a candidate may like or apply to: present and approved. */
  predicate Available(o: Offer, offerId: string)
  {
    o.id == offerId && o.status == Approved
  }
}
