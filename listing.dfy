/**
  The listing pass (LS.java, `run`): hidden entries are skipped and every
  other entry gets one output line, in the order the directory yields them.
 */
module Listing {
  import opened Wrappers
  import opened Permissions
  import opened FileEntry
  import opened LongList

  /** The line written for a visible entry: `"%s \n"` with the name in short
      mode, `"%s %s\n"` with the metadata block and the name in long mode. */
  function Line(f: Entry, l: bool): string
  {
    if l then LongListLine(f) + " " + f.name + "\n"
    else f.name + " \n"
  }

  /** The entries that are not hidden, in their original order. */
  function Visible(files: seq<Entry>): seq<Entry>
  {
    if files == [] then []
    else
      var last := files[|files| - 1];
      Visible(files[..|files| - 1]) + if last.hidden then [] else [last]
  }

  /** One line per entry, in order. */
  function Lines(es: seq<Entry>, l: bool): seq<string>
  {
    if es == [] then []
    else Lines(es[..|es| - 1], l) + [Line(es[|es| - 1], l)]
  }

  /** The diagnostics of each entry, concatenated in order. */
  function LogOf(es: seq<Entry>): seq<Diagnostic>
  {
    if es == [] then []
    else LogOf(es[..|es| - 1]) + Diagnostics(es[|es| - 1])
  }

  /** The standard output of a listing: the lines of the visible entries. */
  function Listing(files: seq<Entry>, l: bool): seq<string>
  {
    Lines(Visible(files), l)
  }

  /** The diagnostic log of a listing: only long mode queries metadata. */
  function ListingLog(files: seq<Entry>, l: bool): seq<Diagnostic>
  {
    if l then LogOf(Visible(files)) else []
  }

  /** An entry is listed iff it is in the directory and not hidden. */
  lemma {:induction false} VisibleMembers(files: seq<Entry>)
    ensures forall e :: e in Visible(files) <==> e in files && !e.hidden
  {
    if files != [] {
      var init := files[..|files| - 1];
      VisibleMembers(init);
      assert files == init + [files[|files| - 1]];
    }
  }

  /** Filtering keeps the enumeration order: it distributes over concatenation. */
  lemma {:induction false} VisibleConcat(a: seq<Entry>, b: seq<Entry>)
    ensures Visible(a + b) == Visible(a) + Visible(b)
    decreases |b|
  {
    if b == [] {
      assert a + b == a;
    } else {
      var ab := a + b;
      assert ab[..|ab| - 1] == a + b[..|b| - 1];
      assert ab[|ab| - 1] == b[|b| - 1];
      VisibleConcat(a, b[..|b| - 1]);
    }
  }

  /** A single entry is kept iff it is not hidden. */
  lemma VisibleOne(e: Entry)
    ensures Visible([e]) == if e.hidden then [] else [e]
  {
  }

  /** The number of non-hidden entries. */
  function CountVisible(files: seq<Entry>): nat
  {
    if files == [] then 0
    else CountVisible(files[..|files| - 1]) + if files[|files| - 1].hidden then 0 else 1
  }

  /** `Lines` writes exactly the line of the i-th entry at position i. */
  lemma {:induction false} LinesAt(es: seq<Entry>, l: bool)
    ensures |Lines(es, l)| == |es|
    ensures forall i :: 0 <= i < |es| ==> Lines(es, l)[i] == Line(es[i], l)
  {
    if es != [] {
      LinesAt(es[..|es| - 1], l);
    }
  }

  /** Exactly one line per non-hidden entry, the i-th for the i-th visible entry. */
  lemma {:induction false} ListingLines(files: seq<Entry>, l: bool)
    ensures |Listing(files, l)| == |Visible(files)| == CountVisible(files)
    ensures forall i :: 0 <= i < |Visible(files)| ==>
      Listing(files, l)[i] == Line(Visible(files)[i], l)
  {
    LinesAt(Visible(files), l);
    VisibleCount(files);
  }

  lemma {:induction false} VisibleCount(files: seq<Entry>)
    ensures |Visible(files)| == CountVisible(files)
  {
    if files != [] {
      VisibleCount(files[..|files| - 1]);
    }
  }

  lemma {:induction false} LinesConcat(a: seq<Entry>, b: seq<Entry>, l: bool)
    ensures Lines(a + b, l) == Lines(a, l) + Lines(b, l)
    decreases |b|
  {
    if b == [] {
      assert a + b == a;
    } else {
      var ab := a + b;
      assert ab[..|ab| - 1] == a + b[..|b| - 1];
      assert ab[|ab| - 1] == b[|b| - 1];
      LinesConcat(a, b[..|b| - 1], l);
    }
  }

  /** Entries are rendered independently and in order: the listing of two
      consecutive runs of entries is the concatenation of their listings. */
  lemma ListingConcat(a: seq<Entry>, b: seq<Entry>, l: bool)
    ensures Listing(a + b, l) == Listing(a, l) + Listing(b, l)
  {
    VisibleConcat(a, b);
    LinesConcat(Visible(a), Visible(b), l);
  }

  /** A directory holding only hidden entries lists nothing and logs nothing. */
  lemma {:induction false} AllHiddenListsNothing(files: seq<Entry>, l: bool)
    requires forall i :: 0 <= i < |files| ==> files[i].hidden
    ensures Listing(files, l) == [] && ListingLog(files, l) == []
  {
    VisibleMembers(files);
  }

  /**
    The loop of the Java method over the enumerated entries: a hidden entry
    is skipped; any other entry has its line written, in long mode after
    querying its metadata.
   */
  method Run(files: seq<Entry>, l: bool) returns (out: seq<string>, log: seq<Diagnostic>)
    ensures out == Listing(files, l)
    ensures log == ListingLog(files, l)
  {
    out, log := [], [];
    for i := 0 to |files|
      invariant out == Listing(files[..i], l)
      invariant log == ListingLog(files[..i], l)
    {
      var file := files[i];
      assert files[..i + 1] == files[..i] + [file];
      VisibleConcat(files[..i], [file]);
      VisibleOne(file);
      if !file.hidden {
        var vis := Visible(files[..i]);
        LinesConcat(vis, [file], l);
        assert Lines([file], l) == [Line(file, l)] by { assert [file][..0] == []; }
        assert (vis + [file])[..|vis|] == vis;
        if l {
          var ll, d := LongList.LongList(file);
          out := out + [ll + " " + file.name + "\n"];
          log := log + d;
        } else {
          out := out + [file.name + " \n"];
        }
        assert out == Lines(vis, l) + [Line(file, l)];
        assert Visible(files[..i + 1]) == vis + [file];
      } else {
        assert Visible(files[..i + 1]) == Visible(files[..i]);
      }
    }
    assert files[..|files|] == files;
  }

  /** The outcome of the whole command. */
  datatype Outcome =
    | Completed(lines: seq<string>, log: seq<Diagnostic>)
    | Crashed(exception: string)

  /**
    `run` as written: `File.listFiles()` returns null, rather than throwing,
    when the directory cannot be read (`None` here), so the catch around the
    call never fires and the for-each loop dereferences null.
   */
  function RunAsWritten(listed: Option<seq<Entry>>, l: bool): (o: Outcome)
    ensures o.Crashed? <==> listed.None?
    ensures listed.Some? ==> o.lines == Listing(listed.value, l) && o.log == ListingLog(listed.value, l)
  {
    match listed
    case None => Crashed("java.lang.NullPointerException")
    case Some(files) => Completed(Listing(files, l), ListingLog(files, l))
  }

  /** An unreadable directory aborts the command with no listing. */
  lemma UnreadableDirectoryCrashes(l: bool)
    ensures RunAsWritten(None, l).Crashed?
  {
  }

  /**
    `run` as its catch block evidently intends: an enumeration failure
    leaves the empty entry array in place, so nothing is listed, and it is
    reported as one diagnostic.
   */
  function RunIntended(listed: Option<seq<Entry>>, l: bool): (o: Outcome)
    ensures o.Completed?
    ensures listed.None? ==> o.lines == [] && o.log == [EnumerationFailed]
    ensures listed.Some? ==> o == RunAsWritten(listed, l)
  {
    match listed
    case None => Completed([], [EnumerationFailed])
    case Some(files) => Completed(Listing(files, l), ListingLog(files, l))
  }

  /** The example directory: a visible `a.txt` and the hidden `.secret`. */
  const ExampleFile := Entry("a.txt", false, Some({OwnerRead, OwnerWrite, GroupRead, OthersRead}),
                             Some("alice"), Some(42), "Jan 7 14:32")
  const ExampleHidden := Entry(".secret", true, None, None, None, "Jan 1 00:00")

  lemma ExampleVisible()
    ensures Visible([ExampleFile, ExampleHidden]) == [ExampleFile]
  {
    var a, h := ExampleFile, ExampleHidden;
    VisibleConcat([a], [h]);
    VisibleOne(a);
    VisibleOne(h);
    assert [a] + [h] == [a, h];
  }

  /** Short mode writes only the visible name, with its trailing space. */
  lemma ExampleShort()
    ensures Listing([ExampleFile, ExampleHidden], false) == ["a.txt \n"]
  {
    var a := ExampleFile;
    ExampleVisible();
    assert Lines([a], false) == [Line(a, false)] by { assert [a][..0] == []; }
    assert a.name == "a.txt";
    assert Line(a, false) == "a.txt \n";
  }

  /** The metadata block of `a.txt`. */
  lemma ExampleBlock()
    ensures LongListLine(ExampleFile) == "rw-r--r-- alice 42 Jan 7 14:32"
  {
    Permissions.ExamplePerms();
    LongList.ExampleSize();
    LongListAllSucceed(ExampleFile, {OwnerRead, OwnerWrite, GroupRead, OthersRead}, "alice", 42);
    assert "rw-r--r--" + " " == "rw-r--r-- ";
    assert "rw-r--r-- " + "alice" == "rw-r--r-- alice";
    assert "rw-r--r-- alice" + " " == "rw-r--r-- alice ";
    assert "rw-r--r-- alice " + "42" == "rw-r--r-- alice 42";
    assert "rw-r--r-- alice 42" + " " == "rw-r--r-- alice 42 ";
    assert "rw-r--r-- alice 42 " + "Jan 7 14:32" == "rw-r--r-- alice 42 Jan 7 14:32";
  }

  /** Long mode writes the metadata block, a space and the name. */
  lemma ExampleLong()
    ensures Listing([ExampleFile, ExampleHidden], true) == ["rw-r--r-- alice 42 Jan 7 14:32 a.txt\n"]
  {
    var a := ExampleFile;
    ExampleVisible();
    assert Lines([a], true) == [Line(a, true)] by { assert [a][..0] == []; }
    ExampleBlock();
    assert "rw-r--r-- alice 42 Jan 7 14:32" + " " + "a.txt" + "\n" == "rw-r--r-- alice 42 Jan 7 14:32 a.txt\n";
  }
}
