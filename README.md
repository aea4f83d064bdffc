# A verified model of `ls` from java-unix-utils

`LS.java` is a small `ls` clone. It lists the current directory, skipping
hidden entries. In short mode it prints each name followed by a space. In
long mode (`-l`) it prints a line per entry made of a metadata block and the
name. The metadata block holds the permission string (`rw-r--r--`), the owner,
the size in bytes and the modification time. Each of the first three comes
from a filesystem query that can fail; a failed query is logged and its token
is left out.

This project models the three pieces of rendering logic in that file:

- `permissions.dfy` (module `Permissions`): the nine POSIX flags as a datatype
  and the `permissions` method. The method keeps the Java shape: a map from
  flag names to letters, a list of the names found in the set, and a loop over
  the fixed name order. It is proved equal to `PermString`, the specification.
  Each flag of the input set is chosen with `:|`, so the result is proved for
  every order in which the set can be iterated.
- `entry.dfy` (module `FileEntry`): the directory entry as the filesystem
  queries report it. Failing queries are `Option`s. The diagnostics the
  logger receives are a sequence of `Diagnostic` records.
- `longlist.dfy` (module `LongList`): the `longlist` method, which builds the
  token list `ll` and joins it with single spaces. It also holds the decimal
  rendering of the size (`String.valueOf`) and the join (`String.join`).
- `listing.dfy` (module `Listing`): the loop of `run`, which skips hidden
  entries and writes one line per other entry. It also holds the finding about
  an unreadable directory (see below).
- `wrappers.dfy` (module `Wrappers`): `Option`.

Standard output is modelled as the returned sequence of lines. The log is
modelled as the returned sequence of diagnostics.

## Model

| member | source | states |
|---|---|---|
| `Permissions.Permissions` | src/main/java/io/anil/junix/LS.java:52-83 | the method's result is `PermString` of the set, whatever order the set is iterated in |
| `Permissions.PermString` | src/main/java/io/anil/junix/LS.java:65-80 | exactly 9 characters; position i is the letter of the i-th flag of owner/group/others × read/write/execute when that flag is in the set, and `-` otherwise |
| `Permissions.RenderAt` | src/main/java/io/anil/junix/LS.java:77-80 | appending one symbol per flag of an order gives one character per flag, the letter iff the flag is present |
| `Permissions.PermStringAlphabet` | src/main/java/io/anil/junix/LS.java:54-63 | positions 0/3/6 are `r` or `-`, 1/4/7 `w` or `-`, 2/5/8 `x` or `-` |
| `Permissions.PermStringShows` | src/main/java/io/anil/junix/LS.java:73-80 | a flag is in the set iff its letter stands at its position, and absent iff `-` stands there |
| `Permissions.PermStringEmpty` | src/main/java/io/anil/junix/LS.java:77-80 | the empty set renders as `---------` |
| `Permissions.PermStringFull` | src/main/java/io/anil/junix/LS.java:77-80 | the set of all nine flags renders as `rwxrwxrwx` |
| `Permissions.ParseRender` | src/main/java/io/anil/junix/LS.java:73-80 | every rendering is well formed and reads back as the set it came from |
| `Permissions.RenderParse` | src/main/java/io/anil/junix/LS.java:77-80 | every well-formed 9-character string is the rendering of the set it shows |
| `Permissions.PermStringInjective` | src/main/java/io/anil/junix/LS.java:73-80 | the string depends on set membership only and loses none of it: equal strings come from equal sets |
| `Permissions.NameInjective` | src/main/java/io/anil/junix/LS.java:73-78 | distinct flags have distinct names, so looking a flag up by name in `filePerms` finds that flag only |
| `LongList.DecimalString` | src/main/java/io/anil/junix/LS.java:108 | the size token is at least one decimal digit, with no sign, suffix or leading zero |
| `LongList.DecimalRoundTrip` | src/main/java/io/anil/junix/LS.java:108 | the size token reads back as the size |
| `LongList.DecimalCanonical` | src/main/java/io/anil/junix/LS.java:108 | every digit string without a leading zero is the token of exactly the value it denotes |
| `LongList.Join` | src/main/java/io/anil/junix/LS.java:115 | `String.join` of no parts is empty; of one or more parts its length is the parts' total plus one separator per pair of neighbours; `JoinLast` gives the contents |
| `LongList.JoinLast` | src/main/java/io/anil/junix/LS.java:115 | joining with a separator writes every part but the last followed by one separator, then the last part |
| `LongList.Tokens` | src/main/java/io/anil/junix/LS.java:88-113 | the token list is never empty, its last token is the modification time, and it has one token per successful query besides |
| `LongList.QueryAccounting` | src/main/java/io/anil/junix/LS.java:88-111 | per query: at most one token, and no token exactly when that query's diagnostic is logged; tokens and diagnostics add up to three |
| `LongList.LongListShape` | src/main/java/io/anil/junix/LS.java:88-115 | the block is permissions, owner and size, each written with one trailing space only when its query succeeded, then the time; a failure leaves no placeholder |
| `LongList.LongListAllSucceed` | src/main/java/io/anil/junix/LS.java:89-115 | with all queries successful the block is `perm + " " + owner + " " + size + " " + time` and nothing is logged |
| `LongList.LongListAllFail` | src/main/java/io/anil/junix/LS.java:88-115 | with all queries failing the block is the time alone and three diagnostics are logged in query order |
| `LongList.LongListOwnerFails` | src/main/java/io/anil/junix/LS.java:101-105 | a failed owner lookup drops only the owner token and logs one diagnostic |
| `LongList.LongList` | src/main/java/io/anil/junix/LS.java:85-116 | the method returns the joined token list and logs exactly the failed queries, in query order |
| `Listing.VisibleMembers` | src/main/java/io/anil/junix/LS.java:129-130 | an entry is listed iff it is in the directory and not hidden |
| `Listing.VisibleConcat` | src/main/java/io/anil/junix/LS.java:129-138 | the filter keeps the enumeration order: filtering two consecutive runs of entries gives the concatenation of their filtered runs |
| `Listing.VisibleOne` | src/main/java/io/anil/junix/LS.java:130 | a single entry is kept iff it is not hidden |
| `Listing.VisibleCount` | src/main/java/io/anil/junix/LS.java:129-130 | the number of listed entries is the number of non-hidden entries |
| `Listing.LinesAt` | src/main/java/io/anil/junix/LS.java:131-136 | line i is the line of entry i: `name + " \n"` in short mode, `longlist + " " + name + "\n"` in long mode |
| `Listing.ListingLines` | src/main/java/io/anil/junix/LS.java:129-138 | the output has one line per non-hidden entry, the i-th line for the i-th visible entry, without sorting |
| `Listing.ListingConcat` | src/main/java/io/anil/junix/LS.java:129-138 | entries are rendered independently: the listing of two runs of entries is the concatenation of their listings |
| `Listing.AllHiddenListsNothing` | src/main/java/io/anil/junix/LS.java:130 | a directory of hidden entries lists nothing and logs nothing in either mode |
| `Listing.Run` | src/main/java/io/anil/junix/LS.java:129-138 | the loop writes `Listing` of the entries and logs `ListingLog` of them |
| `Listing.UnreadableDirectoryCrashes` | src/main/java/io/anil/junix/LS.java:120-129 | as written, an unreadable directory makes the command fail with a null-pointer exception |
| `Listing.RunAsWritten` | src/main/java/io/anil/junix/LS.java:120-138 | as written, the command crashes exactly when the directory cannot be enumerated, and otherwise writes `Listing` and logs `ListingLog` of the entries |
| `Listing.RunIntended` | src/main/java/io/anil/junix/LS.java:120-127 | the intended command never crashes on an enumeration failure: an unreadable directory lists nothing and logs one diagnostic; a readable one behaves as written |
| `Listing.ExampleVisible` | src/main/java/io/anil/junix/LS.java:130 | of `a.txt` and the hidden `.secret`, only `a.txt` is listed |
| `Listing.ExampleShort` | src/main/java/io/anil/junix/LS.java:135 | that directory lists as `"a.txt \n"` in short mode |
| `Permissions.ExamplePerms` | src/main/java/io/anil/junix/LS.java:73-80 | owner read/write, group read and others read render as `rw-r--r--` |
| `LongList.ExampleSize` | src/main/java/io/anil/junix/LS.java:108 | a 42-byte file has the size token `42` |
| `Listing.ExampleBlock` | src/main/java/io/anil/junix/LS.java:85-116 | the metadata block of `a.txt` is `rw-r--r-- alice 42 Jan 7 14:32` |
| `Listing.ExampleLong` | src/main/java/io/anil/junix/LS.java:133 | that directory lists as `"rw-r--r-- alice 42 Jan 7 14:32 a.txt\n"` in long mode |

## Findings

| source | as written | input that shows it | evidently intended | confidence | as-written member | corrected member |
|---|---|---|---|---|---|---|
| src/main/java/io/anil/junix/LS.java:123-129 | `listFiles()` returns null when the directory cannot be read; it does not throw. So the `catch (NullPointerException)` around it never runs, `files` becomes null, and the for-each loop throws an uncaught `NullPointerException` | a current directory that cannot be read (`listed == None`) | the catch keeps the empty array, so nothing is listed and the failure is reported | high, not executed | `Listing.RunAsWritten` | `Listing.RunIntended` |

In the intended version the failure is recorded as an `EnumerationFailed`
diagnostic. The catch block itself would print the exception text to standard
output with `System.out.println`; the model does not write that text.

## Left out

- Command-line parsing with JCommander (`main`, LS.java:41-50): the `-l` flag is the boolean parameter `l`.
- The filesystem queries `listFiles`, `isHidden`, `getName`, `getPosixFilePermissions`, `getOwner`, `length` and `lastModified`. Their results are the fields of `FileEntry.Entry`. The three whose exception LS.java catches are `Option`s: `None` stands for an `IOException` from the permissions or owner query, or a `SecurityException` from `length`.
- The Joda-Time formatting of the modification time with pattern `MMM d HH:mm` in the local time zone. The formatted text is the entry's `lastModified` string.
- SLF4J logging. Only which query failed is recorded (a `Diagnostic`), not the message text or the exception.
- `System.out.format`: the lines are returned instead of printed.
- Exceptions that LS.java does not catch are not modelled. Among them are `InvalidPathException` from `file.toPath()` (LS.java:89, 102), for a name the platform's filename encoding cannot map; `UnsupportedOperationException` and `SecurityException` from `getPosixFilePermissions` and `getOwner` (LS.java:89, 102; only `IOException` is caught); and `SecurityException` from `isHidden`, `lastModified` and `listFiles` (LS.java:130, 96, 124). Each such exception aborts `run`, so the lines already written by `System.out.format` stay as a partial listing. `Run`, `RunAsWritten` and `RunIntended` describe only runs in which none of them is thrown.
- The size is a `nat`. `File.length()` returns a non-negative Java `long`, so the 64-bit bound is not modelled.
- `longlist` computes the time before querying the owner and the size. The model reads it from the entry instead; nothing observable depends on the order.
- An unreadable directory crashes the command as written (see Findings). The empty-array initialisation at LS.java:121 and the catch at LS.java:123-127 show that an empty listing was meant. Only `RunIntended` degrades.
