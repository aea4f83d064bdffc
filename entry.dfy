/**
  One member of the listed directory, as the filesystem queries of LS.java
  report it. The three queries whose exception LS.java catches (permissions
  and owner on IOException, size on SecurityException) are `Option`s:
  `None` is the caught exception. Exceptions the Java code does not catch
  are not modelled; such an exception aborts the whole command.
 */
module FileEntry {
  import opened Wrappers
  import opened Permissions

  datatype Entry = Entry(
    name: string,                    // File.getName()
    hidden: bool,                    // File.isHidden()
    perms: Option<set<Perm>>,        // Files.getPosixFilePermissions, None on IOException
    owner: Option<string>,           // Files.getOwner(..).getName(), None on IOException
    size: Option<nat>,               // File.length(), None on SecurityException
    lastModified: string             // File.lastModified() formatted as "MMM d HH:mm"
  )

  /** One record per failed query, in the order the queries are made. */
  datatype Diagnostic =
    | PermissionsFailed   // "Failed to get file permissions"
    | OwnerFailed         // "Failed get owner"
    | SizeFailed          // "Failed to size of the file"
    | EnumerationFailed   // directory could not be listed (intended behaviour only)
}
