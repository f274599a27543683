/** `getPublicSession`: the profile of a user that may be shown to clients. */
module Session {
  import opened Wrappers
  import opened Text
  import opened Users

  const DefaultPicture := "https://cdn.kiraverse.game/static/paramlabs-logo.png"

  /** The picked columns plus the derived `picture` and `name`. */
  datatype PublicUser = PublicUser(
    id: string,
    email: string,
    roles: seq<Role>,
    active: bool,
    picture: string,
    firstname: string,
    lastname: string,
    createdAt: int,
    updatedAt: int,
    eosPuId: Option<string>,
    walletAddress: Option<string>,
    name: string)

  /** `getPublicSession(user)` */
  function GetPublicSession(user: User): (r: Option<PublicUser>)
    ensures r.None? <==> !user.active
    ensures r.Some? ==> r.value.active
    ensures r.Some? ==> r.value.id == user.id && r.value.email == user.email && r.value.roles == user.roles
    ensures r.Some? ==> r.value.firstname == user.firstname && r.value.lastname == user.lastname
    ensures r.Some? ==> r.value.createdAt == user.createdAt && r.value.updatedAt == user.updatedAt
    ensures r.Some? ==> r.value.eosPuId == user.eosPuId && r.value.walletAddress == user.walletAddress
    ensures r.Some? ==> r.value.picture == if Truthy(user.picture) then user.picture.value else DefaultPicture
    ensures r.Some? ==> r.value.name == user.firstname + " " + user.lastname
  {
    if !user.active then None
    else Some(PublicUser(
      id := user.id,
      email := user.email,
      roles := user.roles,
      active := user.active,
      picture := Or(user.picture, DefaultPicture),
      firstname := user.firstname,
      lastname := user.lastname,
      createdAt := user.createdAt,
      updatedAt := user.updatedAt,
      eosPuId := user.eosPuId,
      walletAddress := user.walletAddress,
      name := user.firstname + " " + user.lastname))
  }

  /** The picture of a public profile is never empty. */
  lemma PublicPictureNonEmpty(u: User)
    requires u.active
    ensures GetPublicSession(u).value.picture != ""
  {
  }
}
