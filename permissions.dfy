/**
  Rendering of a POSIX permission set as the nine-character `rwxr-xr-x`
  string of `ls -l` (LS.java, `permissions`).
 */
module Permissions {

  /** The nine flags of java.nio.file.attribute.PosixFilePermission. */
  datatype Perm =
    | OwnerRead | OwnerWrite | OwnerExecute
    | GroupRead | GroupWrite | GroupExecute
    | OthersRead | OthersWrite | OthersExecute

  /** The enum constant's name, as `PosixFilePermission.name()` returns it. */
  function Name(p: Perm): string
  {
    match p
    case OwnerRead => "OWNER_READ"
    case OwnerWrite => "OWNER_WRITE"
    case OwnerExecute => "OWNER_EXECUTE"
    case GroupRead => "GROUP_READ"
    case GroupWrite => "GROUP_WRITE"
    case GroupExecute => "GROUP_EXECUTE"
    case OthersRead => "OTHERS_READ"
    case OthersWrite => "OTHERS_WRITE"
    case OthersExecute => "OTHERS_EXECUTE"
  }

  /** The letter shown for a flag that is present. */
  function Letter(p: Perm): char
  {
    match p
    case OwnerRead | GroupRead | OthersRead => 'r'
    case OwnerWrite | GroupWrite | OthersWrite => 'w'
    case OwnerExecute | GroupExecute | OthersExecute => 'x'
  }

  /** Output order: owner, group, others, each as read, write, execute. */
  const PermOrder: seq<Perm> :=
    [OwnerRead, OwnerWrite, OwnerExecute,
     GroupRead, GroupWrite, GroupExecute,
     OthersRead, OthersWrite, OthersExecute]

  /** The position of a flag in `PermOrder`. */
  function Index(p: Perm): (i: nat)
    ensures i < |PermOrder| && PermOrder[i] == p
  {
    match p
    case OwnerRead => 0
    case OwnerWrite => 1
    case OwnerExecute => 2
    case GroupRead => 3
    case GroupWrite => 4
    case GroupExecute => 5
    case OthersRead => 6
    case OthersWrite => 7
    case OthersExecute => 8
  }

  /** What one flag contributes: its letter when present, `-` otherwise. */
  function Symbol(p: Perm, perms: set<Perm>): string
  {
    if p in perms then [Letter(p)] else "-"
  }

  /** The symbols of `order`, concatenated left to right. */
  function Render(order: seq<Perm>, perms: set<Perm>): string
  {
    if order == [] then ""
    else Render(order[..|order| - 1], perms) + Symbol(order[|order| - 1], perms)
  }

  /** One character per flag of `order`, each its letter iff the flag is in `perms`. */
  lemma {:induction false} RenderAt(order: seq<Perm>, perms: set<Perm>)
    ensures |Render(order, perms)| == |order|
    ensures forall i :: 0 <= i < |order| ==>
      Render(order, perms)[i] == if order[i] in perms then Letter(order[i]) else '-'
  {
    if order != [] {
      RenderAt(order[..|order| - 1], perms);
    }
  }

  /** The permission string: position `i` shows `PermOrder[i]`'s letter exactly
      when that flag is in the set, and `-` otherwise. */
  function PermString(perms: set<Perm>): (s: string)
    ensures |s| == 9
    ensures forall i :: 0 <= i < 9 ==>
      s[i] == if PermOrder[i] in perms then Letter(PermOrder[i]) else '-'
  {
    RenderAt(PermOrder, perms);
    Render(PermOrder, perms)
  }

  /** Positions 0/3/6 are `r` or `-`, 1/4/7 `w` or `-`, 2/5/8 `x` or `-`. */
  lemma PermStringAlphabet(perms: set<Perm>)
    ensures forall i :: 0 <= i < 9 ==> PermString(perms)[i] in {"rwx"[i % 3], '-'}
  {
  }

  /** A flag is present in the set iff its letter appears at its own position. */
  lemma PermStringShows(perms: set<Perm>, p: Perm)
    ensures PermString(perms)[Index(p)] == Letter(p) <==> p in perms
    ensures PermString(perms)[Index(p)] == '-' <==> p !in perms
  {
  }

  lemma PermStringEmpty()
    ensures PermString({}) == "---------"
  {
  }

  /** Every flag; `AllPermsComplete` shows nothing is missing. */
  const AllPerms: set<Perm> := set i | 0 <= i < |PermOrder| :: PermOrder[i]

  lemma AllPermsComplete(p: Perm)
    ensures p in AllPerms
  {
    assert PermOrder[Index(p)] == p;
  }

  lemma PermStringFull()
    ensures PermString(AllPerms) == "rwxrwxrwx"
  {
  }

  /** Owner read/write, group read and others read: `rw-r--r--`. */
  lemma ExamplePerms()
    ensures PermString({OwnerRead, OwnerWrite, GroupRead, OthersRead}) == "rw-r--r--"
  {
  }

  /** A string shaped like a permission string. */
  predicate WellFormed(s: string)
  {
    |s| == 9 && forall i :: 0 <= i < 9 ==> s[i] == Letter(PermOrder[i]) || s[i] == '-'
  }

  /** Reads a permission string back into the flag set it shows. */
  function ParsePermString(s: string): set<Perm>
    requires |s| == 9
  {
    set p: Perm | s[Index(p)] != '-'
  }

  /** Rendering loses nothing: the set is recovered from its string. */
  lemma ParseRender(perms: set<Perm>)
    ensures WellFormed(PermString(perms))
    ensures ParsePermString(PermString(perms)) == perms
  {
  }

  /** Every well-formed string is the rendering of exactly one set. */
  lemma RenderParse(s: string)
    requires WellFormed(s)
    ensures PermString(ParsePermString(s)) == s
  {
  }

  /** Distinct sets render to distinct strings. */
  lemma PermStringInjective(a: set<Perm>, b: set<Perm>)
    requires PermString(a) == PermString(b)
    ensures a == b
  {
    ParseRender(a);
    ParseRender(b);
  }

  /** Distinct flags have distinct names. */
  lemma NameInjective(p: Perm, q: Perm)
    requires Name(p) == Name(q)
    ensures p == q
  {
  }

  /**
    The Java method: the flags of the set are first copied, by name and in
    whatever order the set yields them, into the list `filePerms`; then each
    name of `permOrder` contributes its letter from `filePermsMap` when it is
    in that list and `-` when it is not. Each element is picked with `:|`,
    so the result holds for every iteration order of the set.
   */
  method Permissions(permissionSet: set<Perm>) returns (r: string)
    ensures r == PermString(permissionSet)
  {
    var filePermsMap: map<string, string> := map[
      "OWNER_READ" := "r", "GROUP_READ" := "r", "OTHERS_READ" := "r",
      "OWNER_WRITE" := "w", "GROUP_WRITE" := "w", "OTHERS_WRITE" := "w",
      "OWNER_EXECUTE" := "x", "GROUP_EXECUTE" := "x", "OTHERS_EXECUTE" := "x"];
    var permOrder: seq<string> := [
      "OWNER_READ", "OWNER_WRITE", "OWNER_EXECUTE",
      "GROUP_READ", "GROUP_WRITE", "GROUP_EXECUTE",
      "OTHERS_READ", "OTHERS_WRITE", "OTHERS_EXECUTE"];
    var sb: string := "";
    var filePerms: seq<string> := [];

    var rest := permissionSet;
    while rest != {}
      invariant rest <= permissionSet
      invariant forall q: Perm :: Name(q) in filePerms <==> q in permissionSet - rest
      decreases rest
    {
      var p :| p in rest;
      forall q: Perm
        ensures Name(q) in filePerms + [Name(p)] <==> q in permissionSet - (rest - {p})
      {
        if Name(q) == Name(p) { NameInjective(p, q); }
      }
      filePerms := filePerms + [Name(p)];
      rest := rest - {p};
    }

    for i := 0 to |permOrder|
      invariant sb == Render(PermOrder[..i], permissionSet)
    {
      var s := permOrder[i];
      assert s == Name(PermOrder[i]);
      var x := if s in filePerms then filePermsMap[s] else "-";
      assert PermOrder[..i + 1][..i] == PermOrder[..i];
      sb := sb + x;
    }
    assert PermOrder[..|permOrder|] == PermOrder;
    r := sb;
  }
}
