/**
  The metadata block of a long-format line (LS.java, `longlist`): the
  tokens of the queries that succeeded, in a fixed order, followed by the
  modification time, joined with single spaces.
 */
module LongList {
  import opened Wrappers
  import opened Permissions
  import opened FileEntry

  /** The character for a decimal digit. */
  function DigitChar(d: nat): (c: char)
    requires d < 10
    ensures '0' <= c <= '9' && c as int - '0' as int == d
  {
    "0123456789"[d]
  }

  predicate IsDigit(c: char)
  {
    '0' <= c <= '9'
  }

  /** `String.valueOf(long)` for a non-negative value: its decimal digits,
      at least one, with no leading zero and no suffix. */
  function DecimalString(n: nat): (s: string)
    ensures |s| >= 1
    ensures forall i :: 0 <= i < |s| ==> IsDigit(s[i])
    ensures s[0] == '0' ==> n == 0 && s == "0"
    decreases n
  {
    if n < 10 then [DigitChar(n)]
    else DecimalString(n / 10) + [DigitChar(n % 10)]
  }

  /** The value of a decimal digit. */
  function DigitValue(c: char): (d: nat)
    requires IsDigit(c)
    ensures d < 10
  {
    c as int - '0' as int
  }

  /** The value of a string of decimal digits. */
  function DecimalValue(s: string): nat
    requires forall i :: 0 <= i < |s| ==> IsDigit(s[i])
  {
    if s == [] then 0
    else DecimalValue(s[..|s| - 1]) * 10 + DigitValue(s[|s| - 1])
  }

  /** The size token reads back as the size. */
  lemma {:induction false} DecimalRoundTrip(n: nat)
    ensures DecimalValue(DecimalString(n)) == n
    decreases n
  {
    var s := DecimalString(n);
    if n >= 10 {
      DecimalRoundTrip(n / 10);
      assert s[..|s| - 1] == DecimalString(n / 10);
    }
  }

  /** Appending digit `d` to `m >= 1` gives the token of `m * 10 + d`. */
  lemma DecimalAppend(m: nat, d: nat)
    requires 1 <= m && d < 10
    ensures DecimalString(m * 10 + d) == DecimalString(m) + [DigitChar(d)]
  {
  }

  /** Every canonical digit string (no leading zero) is some size's token. */
  lemma {:induction false} DecimalCanonical(s: string)
    requires |s| >= 1 && forall i :: 0 <= i < |s| ==> IsDigit(s[i])
    requires |s| > 1 ==> s[0] != '0'
    ensures DecimalString(DecimalValue(s)) == s
    decreases |s|
  {
    var init, c := s[..|s| - 1], s[|s| - 1];
    var d := DigitValue(c);
    assert DecimalValue(s) == DecimalValue(init) * 10 + d;
    if |s| == 1 {
      assert DecimalValue(init) == 0;
      assert DigitChar(d) == c;
    } else {
      assert init[0] == s[0];
      DecimalCanonical(init);
      var m := DecimalValue(init);
      assert m != 0;
      DecimalAppend(m, d);
      assert DigitChar(d) == c;
      assert s == init + [c];
    }
  }

  /** The size token of a 42-byte file. */
  lemma ExampleSize()
    ensures DecimalString(42) == "42"
  {
  }

  /** The lengths of the parts, added up. */
  function TotalLength(parts: seq<string>): nat
  {
    if parts == [] then 0 else TotalLength(parts[..|parts| - 1]) + |parts[|parts| - 1]|
  }

  /** `String.join(sep, parts)`: the parts with `sep` between neighbours. The
      result holds every part and one separator per pair of neighbours. */
  function Join(sep: string, parts: seq<string>): (r: string)
    ensures parts == [] ==> r == ""
    ensures |parts| >= 1 ==> |r| == TotalLength(parts) + (|parts| - 1) * |sep|
  {
    if |parts| == 0 then ""
    else if |parts| == 1 then parts[0]
    else Join(sep, parts[..|parts| - 1]) + sep + parts[|parts| - 1]
  }

  /** Each part followed by `sep`, concatenated. */
  function Terminated(sep: string, parts: seq<string>): string
  {
    if parts == [] then ""
    else Terminated(sep, parts[..|parts| - 1]) + parts[|parts| - 1] + sep
  }

  /** Joining a list that ends in `last` writes every earlier part followed by
      one separator, then `last`. */
  lemma {:induction false} JoinLast(sep: string, parts: seq<string>, last: string)
    ensures Join(sep, parts + [last]) == Terminated(sep, parts) + last
    decreases |parts|
  {
    var all := parts + [last];
    if parts != [] {
      assert all[..|all| - 1] == parts;
      var init := parts[..|parts| - 1];
      JoinLast(sep, init, parts[|parts| - 1]);
      assert init + [parts[|parts| - 1]] == parts;
    }
  }

  /** The token each query contributes: one on success, none on failure. */
  function PermToken(f: Entry): seq<string>
  {
    if f.perms.Some? then [PermString(f.perms.value)] else []
  }

  function OwnerToken(f: Entry): seq<string>
  {
    if f.owner.Some? then [f.owner.value] else []
  }

  function SizeToken(f: Entry): seq<string>
  {
    if f.size.Some? then [DecimalString(f.size.value)] else []
  }

  /** The tokens of the fallible queries, in the order permissions, owner, size. */
  function Fields(f: Entry): seq<string>
  {
    PermToken(f) + OwnerToken(f) + SizeToken(f)
  }

  /** All tokens of the line: the query tokens, then the modification time. */
  function Tokens(f: Entry): (ts: seq<string>)
    ensures |ts| >= 1 && ts[|ts| - 1] == f.lastModified
    ensures |ts| == 1 + |Fields(f)|
  {
    Fields(f) + [f.lastModified]
  }

  /** The diagnostics the queries of `f` log: one per failure, in query order. */
  function Diagnostics(f: Entry): seq<Diagnostic>
  {
    (if f.perms.None? then [PermissionsFailed] else [])
    + (if f.owner.None? then [OwnerFailed] else [])
    + (if f.size.None? then [SizeFailed] else [])
  }

  /** The metadata block of `f`'s long-format line. */
  function LongListLine(f: Entry): string
  {
    Join(" ", Tokens(f))
  }

  /** Every query either contributes a token or logs a diagnostic, never both. */
  lemma QueryAccounting(f: Entry)
    ensures |PermToken(f)| <= 1 && |OwnerToken(f)| <= 1 && |SizeToken(f)| <= 1
    ensures PermToken(f) == [] <==> PermissionsFailed in Diagnostics(f)
    ensures OwnerToken(f) == [] <==> OwnerFailed in Diagnostics(f)
    ensures SizeToken(f) == [] <==> SizeFailed in Diagnostics(f)
    ensures |Fields(f)| + |Diagnostics(f)| == 3
    ensures |Tokens(f)| == 4 - |Diagnostics(f)|
  {
  }

  /** Degrade by omission: each successful query writes its token and one
      space, a failed one writes nothing, and the time always ends the block. */
  lemma LongListShape(f: Entry)
    ensures LongListLine(f) ==
      Terminated(" ", PermToken(f)) + Terminated(" ", OwnerToken(f))
      + Terminated(" ", SizeToken(f)) + f.lastModified
  {
    var p, o, z := PermToken(f), OwnerToken(f), SizeToken(f);
    JoinLast(" ", p + o + z, f.lastModified);
    TerminatedConcat(" ", p + o, z);
    TerminatedConcat(" ", p, o);
  }

  /** A single token is written followed by the separator. */
  lemma TerminatedOne(sep: string, t: string)
    ensures Terminated(sep, [t]) == t + sep
  {
  }

  lemma {:induction false} TerminatedConcat(sep: string, a: seq<string>, b: seq<string>)
    ensures Terminated(sep, a + b) == Terminated(sep, a) + Terminated(sep, b)
    decreases |b|
  {
    if b != [] {
      var ab := a + b;
      assert ab[..|ab| - 1] == a + b[..|b| - 1];
      assert ab[|ab| - 1] == b[|b| - 1];
      TerminatedConcat(sep, a, b[..|b| - 1]);
    } else {
      assert a + b == a;
    }
  }

  /** When all three queries succeed. */
  lemma LongListAllSucceed(f: Entry, perms: set<Perm>, owner: string, size: nat)
    requires f.perms == Some(perms) && f.owner == Some(owner) && f.size == Some(size)
    ensures LongListLine(f) ==
      PermString(perms) + " " + owner + " " + DecimalString(size) + " " + f.lastModified
    ensures Diagnostics(f) == []
  {
    LongListShape(f);
    TerminatedOne(" ", PermString(perms));
    TerminatedOne(" ", owner);
    TerminatedOne(" ", DecimalString(size));
  }

  /** When all three queries fail only the time is left. */
  lemma LongListAllFail(f: Entry)
    requires f.perms.None? && f.owner.None? && f.size.None?
    ensures LongListLine(f) == f.lastModified
    ensures Diagnostics(f) == [PermissionsFailed, OwnerFailed, SizeFailed]
  {
    LongListShape(f);
  }

  /** A failed owner lookup drops the owner token and nothing else. */
  lemma LongListOwnerFails(f: Entry, perms: set<Perm>, size: nat)
    requires f.perms == Some(perms) && f.owner.None? && f.size == Some(size)
    ensures LongListLine(f) == PermString(perms) + " " + DecimalString(size) + " " + f.lastModified
    ensures Diagnostics(f) == [OwnerFailed]
  {
    LongListShape(f);
    TerminatedOne(" ", PermString(perms));
    TerminatedOne(" ", DecimalString(size));
  }

  /**
    The Java method: each query that succeeds appends its token to the list
    `ll`, each one that fails logs a diagnostic instead; the modification
    time is appended last and the list is joined with single spaces.
   */
  method LongList(file: Entry) returns (r: string, log: seq<Diagnostic>)
    ensures r == LongListLine(file)
    ensures log == Diagnostics(file)
  {
    var ll: seq<string> := [];
    log := [];

    match file.perms {
      case Some(perm) =>
        var s := Permissions.Permissions(perm);
        ll := ll + [s];
      case None =>
        log := log + [PermissionsFailed];
    }
    assert ll == PermToken(file);
    assert log == if file.perms.None? then [PermissionsFailed] else [];

    var lastModified := file.lastModified;

    match file.owner {
      case Some(o) => ll := ll + [o];
      case None => log := log + [OwnerFailed];
    }
    assert ll == PermToken(file) + OwnerToken(file);
    assert log == (if file.perms.None? then [PermissionsFailed] else [])
                  + (if file.owner.None? then [OwnerFailed] else []);

    match file.size {
      case Some(n) => ll := ll + [DecimalString(n)];
      case None => log := log + [SizeFailed];
    }
    assert ll == Fields(file);
    assert log == Diagnostics(file);

    ll := ll + [lastModified];
    assert ll == Tokens(file);
    r := Join(" ", ll);
  }
}
