/**
 * The seller profile and its portfolio entries, with the fields the
 * dashboard and the session logic read.
 */
module Profile {
  import opened Base

  datatype PhotoStatus = Active | Sold

  datatype Photo = Photo(
    id: int,
    url: string,
    price: string,
    status: PhotoStatus,
    date: string,
    title: Option<string>)

  datatype Stats = Stats(earnings: string, photosSold: nat, views: nat)

  datatype UserProfile = UserProfile(
    username: string,
    phoneNumber: string,
    firstName: string,
    lastName: string,
    bankName: string,
    accountNumber: string,
    stats: Stats,
    photos: seq<Photo>,
    isNewUser: bool)
}
