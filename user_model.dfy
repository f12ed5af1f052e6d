/** The fields of a user that the profile handler reads and writes.
    server/models/User.js is not part of this model; password hashing is left out. */
module UserModel {
  type Id = string

  datatype User = User(
    id: Id,
    username: string,
    email: string,
    password: string,
    bio: string,
    avatar: string,
    favoriteGenres: seq<string>)
}
