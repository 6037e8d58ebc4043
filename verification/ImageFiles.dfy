/** The names of files in the image directory. */
module ImageFiles {
  /** Managed originals are `{uuid}.cubby` and staged ones `{uuid}.cubby.tmp`;
      older versions stored files under other names. */
  datatype Path = Managed(uuid: nat) | Temp(uuid: nat) | Legacy(name: nat)
}
