/** The nested array FilteringIssueMapper::map() fills before it renders
    anything: message => file => line => list of tests, every level keeping
    its keys in insertion order. It is related here to the reference
    definition of IssueModel. */
module IssueGrouping {
  import opened Sequences
  import opened Sorting
  import opened OrderedDicts
  import opened IssueModel

  type LineBuckets = ODict<int, seq<Test>>
  type FileBuckets = ODict<string, LineBuckets>
  type Grouping = ODict<string, FileBuckets>

  ghost predicate FilesValid(files: FileBuckets)
  {
    files.Valid() && forall f :: f in files.vals ==> files.vals[f].Valid()
  }

  ghost predicate DeepValid(g: Grouping)
  {
    g.Valid() && forall m :: m in g.vals ==> FilesValid(g.vals[m])
  }

  /** `isset($g[$m][$f][$l])`. */
  function Has(g: Grouping, m: string, f: string, l: int): (r: bool)
    ensures DeepValid(g) ==> (r <==> m in g.keys && f in g.vals[m].keys && l in g.vals[m].vals[f].keys)
  {
    m in g.vals && f in g.vals[m].vals && l in g.vals[m].vals[f].vals
  }

  /** `$g[$m][$f][$l]` where it is set, the empty list elsewhere. */
  function TestsOf(g: Grouping, m: string, f: string, l: int): seq<Test>
  {
    if Has(g, m, f, l) then g.vals[m].vals[f].vals[l] else []
  }

  /** One pass of the inner loop body for an event that is not skipped: the
      list at the event's message, file and line is created when missing and
      the event's test appended to it. A new message goes after all earlier
      ones; no other list changes. */
  function Record(g: Grouping, e: Issue): (r: Grouping)
    requires DeepValid(g)
    ensures DeepValid(r)
    ensures e.message in g.vals ==> r.keys == g.keys
    ensures e.message !in g.vals ==> r.keys == g.keys + [e.message]
  {
    var files := if e.message in g.vals then g.vals[e.message] else Empty();
    var lines := if e.file in files.vals then files.vals[e.file] else Empty();
    var files' := files.Put(e.file, lines.Put(e.line, TestsOf(g, e.message, e.file, e.line) + [e.test]));
    PutKeepsFilesValid(files, e.file, lines.Put(e.line, TestsOf(g, e.message, e.file, e.line) + [e.test]));
    PutKeepsDeepValid(g, e.message, files');
    g.Put(e.message, files')
  }

  lemma PutKeepsFilesValid(files: FileBuckets, f: string, lines: LineBuckets)
    requires FilesValid(files) && lines.Valid()
    ensures FilesValid(files.Put(f, lines))
  {
  }

  lemma PutKeepsDeepValid(g: Grouping, m: string, files: FileBuckets)
    requires DeepValid(g) && FilesValid(files)
    ensures DeepValid(g.Put(m, files))
  {
  }

  /** Recording an event creates the list at its message, file and line if
      needed and appends its test there; every other list stays as it was. */
  lemma RecordEffect(g: Grouping, e: Issue, m: string, f: string, l: int)
    requires DeepValid(g)
    ensures Has(Record(g, e), m, f, l) <==> Has(g, m, f, l) || (m == e.message && f == e.file && l == e.line)
    ensures TestsOf(Record(g, e), m, f, l)
         == if m == e.message && f == e.file && l == e.line then TestsOf(g, m, f, l) + [e.test]
            else TestsOf(g, m, f, l)
  {
    if m != e.message {
      RecordOtherMessage(g, e, m);
    } else if f != e.file {
      RecordOtherFile(g, e, f);
    } else {
      RecordSameFile(g, e, l);
    }
  }

  lemma RecordOtherMessage(g: Grouping, e: Issue, m: string)
    requires DeepValid(g) && m != e.message
    ensures m in Record(g, e).vals <==> m in g.vals
    ensures m in g.vals ==> Record(g, e).vals[m] == g.vals[m]
  {
  }

  lemma RecordOtherFile(g: Grouping, e: Issue, f: string)
    requires DeepValid(g) && f != e.file
    ensures f in Record(g, e).vals[e.message].vals <==> e.message in g.vals && f in g.vals[e.message].vals
    ensures e.message in g.vals && f in g.vals[e.message].vals
        ==> Record(g, e).vals[e.message].vals[f] == g.vals[e.message].vals[f]
  {
  }

  lemma RecordSameFile(g: Grouping, e: Issue, l: int)
    requires DeepValid(g)
    ensures e.file in Record(g, e).vals[e.message].vals
    ensures l in Record(g, e).vals[e.message].vals[e.file].vals <==> Has(g, e.message, e.file, l) || l == e.line
    ensures Has(g, e.message, e.file, l) && l != e.line
        ==> Record(g, e).vals[e.message].vals[e.file].vals[l] == g.vals[e.message].vals[e.file].vals[l]
    ensures Record(g, e).vals[e.message].vals[e.file].vals[e.line] == TestsOf(g, e.message, e.file, e.line) + [e.test]
  {
  }

  /** The array once the first loop of map() has recorded `kept`, the events
      it did not skip, in order. */
  function Grouped(kept: seq<Issue>): (g: Grouping)
    ensures DeepValid(g)
  {
    if kept == [] then Empty() else Record(Grouped(kept[..|kept| - 1]), kept[|kept| - 1])
  }

  /** The tests of the events at one message, file and line, in order. */
  function TestsAt(events: seq<Issue>, m: string, f: string, l: int): (tests: seq<Test>)
    ensures forall t :: t in tests <==> Issue(m, f, l, t) in events
  {
    if events == [] then []
    else
      var init, e := events[..|events| - 1], events[|events| - 1];
      assert forall x :: x in events <==> x in init || x == e;
      if e == Issue(m, f, l, e.test) then TestsAt(init, m, f, l) + [e.test] else TestsAt(init, m, f, l)
  }

  /** The messages of the array are the distinct messages of the recorded
      events, in the order they first occur. */
  lemma {:induction false} GroupedMessages(kept: seq<Issue>)
    ensures Grouped(kept).keys == Unique(Messages(kept))
  {
    if kept != [] {
      var init, e := kept[..|kept| - 1], kept[|kept| - 1];
      var g, u := Grouped(init), Unique(Messages(init));
      var next := if e.message in u then u else u + [e.message];
      assert Unique(Messages(kept)) == next by {
        assert kept == init + [e];
        MessagesSnoc(init, e);
        UniqueSnoc(Messages(init), e.message);
      }
      assert Grouped(kept).keys == next by {
        GroupedMessages(init);
        assert Grouped(kept) == Record(g, e);
      }
    }
  }

  lemma MessagesSnoc(events: seq<Issue>, e: Issue)
    ensures Messages(events + [e]) == Messages(events) + [e.message]
  {

  }

  /** Every list of the array holds the tests of the recorded events at its
      message, file and line, in order, and a list exists exactly where some
      event was recorded. */
  lemma {:induction false} GroupedTests(kept: seq<Issue>, m: string, f: string, l: int)
    ensures TestsOf(Grouped(kept), m, f, l) == TestsAt(kept, m, f, l)
    ensures Has(Grouped(kept), m, f, l) <==> TestsAt(kept, m, f, l) != []
  {
    if kept != [] {
      var init, e := kept[..|kept| - 1], kept[|kept| - 1];
      GroupedTests(init, m, f, l);
      RecordEffect(Grouped(init), e, m, f, l);
    }
  }

  // ---------------------------------------------------------------------
  // What the loops over files and lines in map() collect for one message

  /** `$file . ':' . $line` for each line of one file. */
  function LineLocations(file: string, lines: seq<int>): seq<string>
  {
    seq(|lines|, i requires 0 <= i < |lines| => Location(file, lines[i]))
  }

  /** The locations collected over the given files, file by file. */
  function FileLocations(files: seq<string>, buckets: map<string, LineBuckets>): seq<string>
    requires forall f :: f in files ==> f in buckets
  {
    if files == [] then []
    else
      var init, last := files[..|files| - 1], files[|files| - 1];
      assert forall f :: f in init ==> f in files;
      FileLocations(init, buckets) + LineLocations(last, buckets[last].keys)
  }

  /** `$this->describe($test)` for each test of one list. */
  function TestDescriptors(tests: seq<Test>): seq<string>
  {
    seq(|tests|, i requires 0 <= i < |tests| => Describe(tests[i]))
  }

  /** The descriptors collected over the given lines of one file. */
  function LineDescriptors(lines: seq<int>, buckets: map<int, seq<Test>>): seq<string>
    requires forall l :: l in lines ==> l in buckets
  {
    if lines == [] then []
    else
      var init, last := lines[..|lines| - 1], lines[|lines| - 1];
      assert forall l :: l in init ==> l in lines;
      LineDescriptors(init, buckets) + TestDescriptors(buckets[last])
  }

  /** The descriptors collected over the given files, file by file. */
  function FileDescriptors(files: seq<string>, buckets: map<string, LineBuckets>): seq<string>
    requires forall f :: f in files ==> f in buckets && buckets[f].Valid()
  {
    if files == [] then []
    else
      var init, last := files[..|files| - 1], files[|files| - 1];
      assert forall f :: f in init ==> f in files;
      assert last in files && buckets[last].Valid();
      assert forall l :: l in buckets[last].keys ==> l in buckets[last].vals;
      FileDescriptors(init, buckets) + LineDescriptors(buckets[last].keys, buckets[last].vals)
  }

  lemma {:induction false} FileLocationsMembers(files: seq<string>, buckets: map<string, LineBuckets>, x: string)
    requires forall f :: f in files ==> f in buckets
    ensures x in FileLocations(files, buckets)
        <==> exists f, l :: f in files && l in buckets[f].keys && x == Location(f, l)
  {
    if files != [] {
      var init, last := files[..|files| - 1], files[|files| - 1];
      assert forall f :: f in files <==> f in init || f == last;
      FileLocationsMembers(init, buckets, x);
      var lines := buckets[last].keys;
      if x in LineLocations(last, lines) {
        var i :| 0 <= i < |lines| && LineLocations(last, lines)[i] == x;
        assert lines[i] in lines;
      }
      if l :| l in lines && x == Location(last, l) {
        var i :| 0 <= i < |lines| && lines[i] == l;
        assert LineLocations(last, lines)[i] == x;
      }
    }
  }

  /** No location is collected twice: files are distinct, lines within a
      file are distinct, and different places render differently. */
  lemma {:induction false} FileLocationsDistinct(files: seq<string>, buckets: map<string, LineBuckets>)
    requires NoDuplicates(files)
    requires forall f :: f in files ==> f in buckets && NoDuplicates(buckets[f].keys)
    ensures NoDuplicates(FileLocations(files, buckets))
  {
    if files != [] {
      var init, last := files[..|files| - 1], files[|files| - 1];
      assert forall f :: f in init ==> f in files;
      FileLocationsDistinct(init, buckets);
      var lines := buckets[last].keys;
      var here := LineLocations(last, lines);
      assert last in files;
      forall i, j | 0 <= i < j < |here| ensures here[i] != here[j] {
        if here[i] == here[j] {
          LocationInjective(last, lines[i], last, lines[j]);
        }
      }
      forall x | x in FileLocations(init, buckets) ensures x !in here {
        FileLocationsMembers(init, buckets, x);
        var f, l :| f in init && l in buckets[f].keys && x == Location(f, l);
        if x in here {
          var i :| 0 <= i < |here| && here[i] == x;
          LocationInjective(f, l, last, lines[i]);
        }
      }
      NoDuplicatesConcat(FileLocations(init, buckets), here);
    }
  }

  lemma TestDescriptorsMembers(tests: seq<Test>, x: string)
    ensures x in TestDescriptors(tests) <==> exists t :: t in tests && x == Describe(t)
  {
    if x in TestDescriptors(tests) {
      var i :| 0 <= i < |tests| && TestDescriptors(tests)[i] == x;
      assert tests[i] in tests;
    }
    if t :| t in tests && x == Describe(t) {
      var i :| 0 <= i < |tests| && tests[i] == t;
      assert TestDescriptors(tests)[i] == x;
    }
  }

  lemma {:induction false} LineDescriptorsMembers(lines: seq<int>, buckets: map<int, seq<Test>>, x: string)
    requires forall l :: l in lines ==> l in buckets
    ensures x in LineDescriptors(lines, buckets)
        <==> exists l, t :: l in lines && t in buckets[l] && x == Describe(t)
  {
    if lines != [] {
      var init, last := lines[..|lines| - 1], lines[|lines| - 1];
      assert forall l :: l in lines <==> l in init || l == last;
      LineDescriptorsMembers(init, buckets, x);
      TestDescriptorsMembers(buckets[last], x);
    }
  }

  lemma {:induction false} FileDescriptorsMembers(files: seq<string>, buckets: map<string, LineBuckets>, x: string)
    requires forall f :: f in files ==> f in buckets && buckets[f].Valid()
    ensures x in FileDescriptors(files, buckets)
        <==> exists f, l, t :: f in files && l in buckets[f].vals && t in buckets[f].vals[l] && x == Describe(t)
  {
    if files != [] {
      var init, last := files[..|files| - 1], files[|files| - 1];
      assert forall f :: f in files <==> f in init || f == last;
      FileDescriptorsMembers(init, buckets, x);
      LineDescriptorsMembers(buckets[last].keys, buckets[last].vals, x);
    }
  }

  // ---------------------------------------------------------------------
  // The array yields the reference groups

  /** For each message of the array, its locations once sorted, and its
      distinct test descriptors once sorted, are those of the reference
      group of that message. */
  lemma DictionaryGroup(kept: seq<Issue>, m: string)
    requires m in Grouped(kept).vals
    ensures var files := Grouped(kept).vals[m];
      GroupedIssue(m, Sort(FileLocations(files.keys, files.vals)), Sort(Unique(FileDescriptors(files.keys, files.vals))))
        == GroupFor(kept, m)
  {
    var files := Grouped(kept).vals[m];
    var own := WithMessage(kept, m);
    var locations := FileLocations(files.keys, files.vals);
    FileLocationsDistinct(files.keys, files.vals);
    LocationsMembers(own);
    forall x ensures x in locations <==> x in Unique(Locations(own)) {
      SameLocations(kept, m, x);
    }
    SortSameElements(locations, Unique(Locations(own)));
    var descriptors := FileDescriptors(files.keys, files.vals);
    DescriptorsMembers(own);
    forall x ensures x in Unique(descriptors) <==> x in Unique(Descriptors(own)) {
      SameDescriptors(kept, m, x);
    }
    SortSameElements(Unique(descriptors), Unique(Descriptors(own)));
  }

  lemma SameLocations(kept: seq<Issue>, m: string, x: string)
    requires m in Grouped(kept).vals
    ensures var files := Grouped(kept).vals[m];
      (x in FileLocations(files.keys, files.vals)
       <==> exists e :: e in WithMessage(kept, m) && x == Location(e.file, e.line))
  {
    var files := Grouped(kept).vals[m];
    FileLocationsMembers(files.keys, files.vals, x);
    if f, l :| f in files.keys && l in files.vals[f].keys && x == Location(f, l) {
      GroupedTests(kept, m, f, l);
      var t := TestsAt(kept, m, f, l)[0];
      assert t in TestsAt(kept, m, f, l);
      assert Issue(m, f, l, t) in WithMessage(kept, m);
    }
    if e :| e in WithMessage(kept, m) && x == Location(e.file, e.line) {
      GroupedTests(kept, m, e.file, e.line);
      assert e == Issue(m, e.file, e.line, e.test);
      assert e.test in TestsAt(kept, m, e.file, e.line);
      assert e.file in files.keys && e.line in files.vals[e.file].keys;
    }
  }

  lemma SameDescriptors(kept: seq<Issue>, m: string, x: string)
    requires m in Grouped(kept).vals
    ensures var files := Grouped(kept).vals[m];
      (x in FileDescriptors(files.keys, files.vals)
       <==> exists e :: e in WithMessage(kept, m) && x == Describe(e.test))
  {
    var files := Grouped(kept).vals[m];
    FileDescriptorsMembers(files.keys, files.vals, x);
    if f, l, t :| f in files.keys && l in files.vals[f].vals && t in files.vals[f].vals[l] && x == Describe(t) {
      GroupedTests(kept, m, f, l);
      assert t in TestsAt(kept, m, f, l);
      assert Issue(m, f, l, t) in WithMessage(kept, m);
    }
    if e :| e in WithMessage(kept, m) && x == Describe(e.test) {
      GroupedTests(kept, m, e.file, e.line);
      assert e == Issue(m, e.file, e.line, e.test);
      assert e.test in TestsAt(kept, m, e.file, e.line);
      assert e.file in files.keys && e.test in files.vals[e.file].vals[e.line];
    }
  }
}
