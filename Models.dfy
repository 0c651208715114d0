/**
 * The four stored record types. Timestamps are integers; nullable columns
 * (Go pointers) are `Option`s. Storage-only details (column types, sizes,
 * defaults) are not part of the model.
 */
module Models {
  import opened Wrappers

  type Timestamp = int

  /**
   * The columns every soft-delete model embeds (gorm.Model). A row whose
   * `deletedAt` is set is soft-deleted: it stays in the table, and every
   * default-scoped read skips it.
   */
  datatype SoftDeleteModel = SoftDeleteModel(
    id: nat,
    createdAt: Timestamp,
    updatedAt: Timestamp,
    deletedAt: Option<Timestamp>)
  {
    /** The default scope's `deleted_at IS NULL`. */
    predicate Live() { deletedAt.None? }
  }

  datatype Event = Event(
    base: SoftDeleteModel,
    title: string,
    description: string,
    eventDate: Timestamp,
    endDate: Option<Timestamp>,
    location: string,
    locationDetails: string,
    isRecurring: bool,
    recurrenceRule: string,
    recurrenceEnd: Option<Timestamp>,
    registrationEnabled: bool,
    capacityLimit: Option<int>,
    registrationDeadline: Option<Timestamp>,
    visibleFrom: Option<Timestamp>,
    visibleUntil: Option<Timestamp>,
    isPublic: bool,
    ministryId: Option<nat>,
    createdBy: Option<nat>)

  datatype Ministry = Ministry(
    base: SoftDeleteModel,
    name: string,
    slug: string,
    description: string,
    leaderId: Option<nat>,
    contactEmail: string,
    meetingTime: string,
    location: string,
    isActive: bool,
    sortOrder: int,
    pageContent: string)

  datatype StaffMember = StaffMember(
    base: SoftDeleteModel,
    userId: Option<nat>,
    name: string,
    title: string,
    bio: string,
    email: string,
    phone: string,
    photoUrl: string,
    displayOrder: int,
    isActive: bool)

  /** A hard-delete model: no soft-delete columns; `key` is the primary key. */
  datatype SiteSetting = SiteSetting(
    key: string,
    value: string,
    description: string,
    updatedBy: Option<nat>,
    updatedAt: Timestamp)
}
