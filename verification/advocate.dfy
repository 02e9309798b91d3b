/** The directory's one record type, as the client and the API exchange it. */
module AdvocateTypes {
  import opened Common

  /**
    An advocate.  `id` and `createdAt` are assigned by the database and may be
    absent; numbers are modelled as integers.
   */
  datatype Advocate = Advocate(
    id: Option<int>,
    firstName: string,
    lastName: string,
    city: string,
    degree: string,
    specialties: seq<string>,
    yearsOfExperience: int,
    phoneNumber: int,
    createdAt: Option<string>
  )

  /** The display name `${firstName} ${lastName}`, used by search and the avatar colour. */
  function FullName(a: Advocate): string {
    a.firstName + " " + a.lastName
  }
}
