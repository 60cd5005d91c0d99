/** Records shared by several components, with the fields the modelled logic reads. */
module Records {
  import opened Wrappers

  /** An uploaded file held by the storage layer; `url` is what `getDirectURL()` returns. */
  datatype Blob = Blob(url: string)

  /** The two properties of a browser `File` that the upload checks look at. */
  datatype FileInfo = FileInfo(mime: string, size: nat)

  /** `UserProfile` as the backend declares it. */
  datatype UserProfile = UserProfile(
    name: string,
    bio: string,
    avatarType: string,
    color: string,
    backgroundColor: string,
    textOverlays: string,
    profilePicture: Option<Blob>)

  /** The fields of a server that the client logic reads. */
  datatype Server = Server(
    id: string,
    name: string,
    owner: string,
    bio: Option<string>,
    accentColor: Option<string>,
    icon: Option<Blob>)

  const MiB: nat := 1024 * 1024
}
