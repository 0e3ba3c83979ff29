/** FilteringIssueMapper: turns the deprecations, notices, warnings and errors
    triggered by tests into the title/body elements of the default output,
    one per distinct message, leaving out those triggered in files under the
    configured path prefixes. */
module IssueMapper {
  import opened Sequences
  import opened Sorting
  import opened OrderedDicts
  import opened IssueModel
  import opened IssueGrouping

  class FilteringIssueMapper {
    const ignoredPathPrefixes: seq<string>

    constructor (ignoredPathPrefixes: seq<string>)
      ensures this.ignoredPathPrefixes == ignoredPathPrefixes
    {
      this.ignoredPathPrefixes := ignoredPathPrefixes;
    }

    /** Whether some configured prefix starts the file name. */
    method ShouldBeIgnored(file: string) returns (r: bool)
      ensures r == Ignored(ignoredPathPrefixes, file)
    {
      for i := 0 to |ignoredPathPrefixes|
        invariant forall k :: 0 <= k < i ==> !(ignoredPathPrefixes[k] <= file)
      {
        if ignoredPathPrefixes[i] <= file {
          assert ignoredPathPrefixes[i] in ignoredPathPrefixes;
          return true;
        }
      }
      return false;
    }

    /** The first loop of map(): every event of every test, in order, is
        recorded in the nested array unless its file is ignored. */
    method Group(eventsGroupedByTest: seq<seq<Issue>>) returns (g: Grouping)
      ensures g == Grouped(KeptEvents(ignoredPathPrefixes, eventsGroupedByTest))
    {
      g := Empty();
      for i := 0 to |eventsGroupedByTest|
        invariant g == Grouped(Kept(ignoredPathPrefixes, Flatten(eventsGroupedByTest[..i])))
      {
        var events := eventsGroupedByTest[i];
        ghost var before := Flatten(eventsGroupedByTest[..i]);
        assert before + events[..0] == before;
        for j := 0 to |events|
          invariant g == Grouped(Kept(ignoredPathPrefixes, before + events[..j]))
        {
          var event := events[j];
          var ignored := ShouldBeIgnored(event.file);
          GroupStep(ignoredPathPrefixes, before, events, j, g);
          if !ignored {
            g := Record(g, event);
          }
        }
        assert events[..|events|] == events;
        FlattenSnoc(eventsGroupedByTest, i);
      }
      assert eventsGroupedByTest[..|eventsGroupedByTest|] == eventsGroupedByTest;
    }

    /** The loops over files and lines in map(), for one message: a location
        per file and line, and a descriptor per test recorded there, file by
        file and line by line. */
    method CollectLocationsAndTests(files: FileBuckets) returns (locations: seq<string>, tests: seq<string>)
      requires FilesValid(files)
      ensures locations == FileLocations(files.keys, files.vals)
      ensures tests == FileDescriptors(files.keys, files.vals)
    {
      locations, tests := [], [];
      for i := 0 to |files.keys|
        invariant locations == FileLocations(files.keys[..i], files.vals)
        invariant tests == FileDescriptors(files.keys[..i], files.vals)
      {
        var file := files.keys[i];
        FileSnoc(files, i);
        var fileLocations, fileTests := CollectFile(file, files.vals[file]);
        locations := locations + fileLocations;
        tests := tests + fileTests;
      }
      assert files.keys[..|files.keys|] == files.keys;
    }

    /** The loop over one file's lines in map(): its locations, and the
        descriptors of the tests recorded at each of its lines, line by line. */
    method CollectFile(file: string, lines: LineBuckets) returns (locations: seq<string>, tests: seq<string>)
      requires lines.Valid()
      ensures locations == LineLocations(file, lines.keys)
      ensures tests == LineDescriptors(lines.keys, lines.vals)
    {
      locations, tests := [], [];
      for j := 0 to |lines.keys|
        invariant locations == LineLocations(file, lines.keys[..j])
        invariant tests == LineDescriptors(lines.keys[..j], lines.vals)
      {
        var line := lines.keys[j];
        locations := locations + [Location(file, line)];
        var lineTests := DescribeAll(lines.vals[line]);
        tests := tests + lineTests;
        LineSnoc(file, lines, j);
      }
      assert lines.keys[..|lines.keys|] == lines.keys;
    }

    /** The innermost loop over a bucket in map(): the descriptor of each test, in order. */
    method DescribeAll(bucket: seq<Test>) returns (tests: seq<string>)
      ensures tests == TestDescriptors(bucket)
    {
      tests := [];
      for k := 0 to |bucket|
        invariant tests == TestDescriptors(bucket[..k])
      {
        tests := tests + [Describe(bucket[k])];
        TestDescriptorsSnoc(bucket, k);
      }
      assert bucket[..|bucket|] == bucket;
    }

    /** The building of the body in map(): the heading, a bullet per location, an empty line, the
        second heading and a bullet per test. */
    method RenderBody(locations: seq<string>, tests: seq<string>) returns (body: string)
      ensures body == Body(locations, tests)
    {
      body := AppendBullets(LocationsHeading, locations);
      body := body + (EOL + EOL + TestsHeading);
      body := AppendBullets(body, tests);
      SeparatorAppendedAsOnePiece(Bullets(locations), Bullets(tests));
    }

    /** One of the two bullet loops of the body in map(): a line break, the bullet and the
        item, for each item in order. */
    method AppendBullets(text: string, items: seq<string>) returns (body: string)
      ensures body == text + Bullets(items)
    {
      body := text;
      for i := 0 to |items|
        invariant body == text + Bullets(items[..i])
      {
        body := body + (EOL + Bullet + items[i]);
        BulletsStep(text, items, i);
      }
      assert items[..|items|] == items;
    }

    /** FilteringIssueMapper::map(): the report, one element per distinct
        message of the events that are not ignored. */
    method Map(eventsGroupedByTest: seq<seq<Issue>>) returns (elements: seq<Element>)
      ensures elements == Report(ignoredPathPrefixes, eventsGroupedByTest)
    {
      var grouped := Group(eventsGroupedByTest);
      elements := MapMessages(grouped);
      ReportIsRendered(ignoredPathPrefixes, eventsGroupedByTest);
    }

    /** The second loop of map(): an element per message of the nested
        array, in the array's order. */
    method MapMessages(grouped: Grouping) returns (elements: seq<Element>)
      requires DeepValid(grouped)
      ensures elements == RenderedMessages(grouped)
    {
      elements := [];
      for k := 0 to |grouped.keys|
        invariant |elements| == k
        invariant forall j :: 0 <= j < k ==> elements[j] == RenderedMessages(grouped)[j]
      {
        var message := grouped.keys[k];
        var element := MapMessage(message, grouped.vals[message]);
        elements := elements + [element];
      }
    }

    /** One pass of the second loop of map(), for one message: its locations sorted, its distinct test
        descriptors sorted, rendered under the message as title. */
    method MapMessage(message: string, files: FileBuckets) returns (element: Element)
      requires FilesValid(files)
      ensures element == RenderedMessage(message, files)
    {
      var locations, tests := CollectLocationsAndTests(files);
      tests := Unique(tests);
      locations := Sort(locations);
      tests := Sort(tests);
      var body := RenderBody(locations, tests);
      element := Element(message, body);
    }
  }

  lemma GroupedKeptSnoc(prefixes: seq<string>, events: seq<Issue>, e: Issue)
    ensures Grouped(Kept(prefixes, events + [e]))
         == if Ignored(prefixes, e.file) then Grouped(Kept(prefixes, events))
            else Record(Grouped(Kept(prefixes, events)), e)
  {
    assert (events + [e])[..|events|] == events;
    var k := Kept(prefixes, events);
    assert (k + [e])[..|k|] == k;
  }

  lemma GroupStep(prefixes: seq<string>, before: seq<Issue>, events: seq<Issue>, j: nat, g: Grouping)
    requires j < |events| && g == Grouped(Kept(prefixes, before + events[..j]))
    ensures Grouped(Kept(prefixes, before + events[..j + 1]))
         == if Ignored(prefixes, events[j].file) then g else Record(g, events[j])
  {
    SnocSlice(before, events, j);
    GroupedKeptSnoc(prefixes, before + events[..j], events[j]);
  }

  /** The element rendered for each message of a nested array, in the
      array's order. */
  ghost function RenderedMessages(grouped: Grouping): seq<Element>
    requires DeepValid(grouped)
  {
    seq(|grouped.keys|, k requires 0 <= k < |grouped.keys| =>
      RenderedMessage(grouped.keys[k], grouped.vals[grouped.keys[k]]))
  }

  /** The element for one message: its locations sorted and its distinct
      test descriptors sorted, as collected from its files. */
  ghost function RenderedMessage(message: string, files: FileBuckets): Element
    requires FilesValid(files)
  {
    Render(GroupedIssue(message, Sort(FileLocations(files.keys, files.vals)),
                        Sort(Unique(FileDescriptors(files.keys, files.vals)))))
  }

  /** Rendering the messages of the nested array that map() builds gives the
      report. */
  lemma ReportIsRendered(prefixes: seq<string>, eventsGroupedByTest: seq<seq<Issue>>)
    ensures Report(prefixes, eventsGroupedByTest) == RenderedMessages(Grouped(KeptEvents(prefixes, eventsGroupedByTest)))
  {
    var report := Report(prefixes, eventsGroupedByTest);
    var rendered := RenderedMessages(Grouped(KeptEvents(prefixes, eventsGroupedByTest)));
    GroupedMessages(KeptEvents(prefixes, eventsGroupedByTest));
    assert |report| == |rendered|;
    forall k | 0 <= k < |report|
      ensures report[k] == rendered[k]
    {
      RenderedElement(prefixes, eventsGroupedByTest, k);
    }
  }

  /** The k-th element of the report is the one rendered for the k-th
      message of the nested array. */
  lemma RenderedElement(prefixes: seq<string>, eventsGroupedByTest: seq<seq<Issue>>, k: nat)
    requires k < |Report(prefixes, eventsGroupedByTest)|
    ensures k < |RenderedMessages(Grouped(KeptEvents(prefixes, eventsGroupedByTest)))|
    ensures Report(prefixes, eventsGroupedByTest)[k]
         == RenderedMessages(Grouped(KeptEvents(prefixes, eventsGroupedByTest)))[k]
  {
    var kept := KeptEvents(prefixes, eventsGroupedByTest);
    var grouped := Grouped(kept);
    GroupedMessages(kept);
    assert grouped.keys[k] in grouped.vals;
    DictionaryGroup(kept, grouped.keys[k]);
  }

  lemma SnocSlice<T>(before: seq<T>, s: seq<T>, j: nat)
    requires j < |s|
    ensures before + s[..j + 1] == (before + s[..j]) + [s[j]]
  {
    assert s[..j + 1] == s[..j] + [s[j]];
  }

  lemma BulletsStep(text: string, items: seq<string>, i: nat)
    requires i < |items|
    ensures text + Bullets(items[..i + 1]) == text + Bullets(items[..i]) + (EOL + Bullet + items[i])
  {
    assert items[..i + 1][..i] == items[..i];
  }

  /** Appending the empty line and the tests heading in one piece, as the
      code does, gives the same body as appending them one by one. */
  lemma SeparatorAppendedAsOnePiece(locationBullets: string, testBullets: string)
    ensures LocationsHeading + locationBullets + (EOL + EOL + TestsHeading) + testBullets
         == LocationsHeading + locationBullets + EOL + EOL + TestsHeading + testBullets
  {
  }

  lemma FlattenSnoc(eventsGroupedByTest: seq<seq<Issue>>, i: nat)
    requires i < |eventsGroupedByTest|
    ensures Flatten(eventsGroupedByTest[..i + 1]) == Flatten(eventsGroupedByTest[..i]) + eventsGroupedByTest[i]
  {
    assert eventsGroupedByTest[..i + 1][..i] == eventsGroupedByTest[..i];
  }

  lemma TestDescriptorsSnoc(bucket: seq<Test>, k: nat)
    requires k < |bucket|
    ensures TestDescriptors(bucket[..k + 1]) == TestDescriptors(bucket[..k]) + [Describe(bucket[k])]
  {
  }

  lemma LineSnoc(file: string, lines: LineBuckets, j: nat)
    requires lines.Valid() && j < |lines.keys|
    ensures LineLocations(file, lines.keys[..j + 1]) == LineLocations(file, lines.keys[..j]) + [Location(file, lines.keys[j])]
    ensures LineDescriptors(lines.keys[..j + 1], lines.vals)
         == LineDescriptors(lines.keys[..j], lines.vals) + TestDescriptors(lines.vals[lines.keys[j]])
  {
    LineLocationsSnoc(file, lines.keys, j);
    assert lines.keys[..j + 1][..j] == lines.keys[..j];
  }

  lemma LineLocationsSnoc(file: string, keys: seq<int>, j: nat)
    requires j < |keys|
    ensures LineLocations(file, keys[..j + 1]) == LineLocations(file, keys[..j]) + [Location(file, keys[j])]
  {
  }

  lemma FileSnoc(files: FileBuckets, i: nat)
    requires FilesValid(files) && i < |files.keys|
    ensures files.keys[i] in files.vals && files.vals[files.keys[i]].Valid()
    ensures FileLocations(files.keys[..i + 1], files.vals)
         == FileLocations(files.keys[..i], files.vals) + LineLocations(files.keys[i], files.vals[files.keys[i]].keys)
    ensures FileDescriptors(files.keys[..i + 1], files.vals)
         == FileDescriptors(files.keys[..i], files.vals)
            + LineDescriptors(files.vals[files.keys[i]].keys, files.vals[files.keys[i]].vals)
  {
    assert files.keys[..i + 1][..i] == files.keys[..i];
  }
}
