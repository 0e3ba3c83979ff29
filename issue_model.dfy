/** What FilteringIssueMapper::map() produces, defined directly over the
    events rather than through the nested array the PHP code fills: the
    values, the rendering of locations, test descriptors and bodies, and the
    properties the report has. */
module IssueModel {
  import opened Text
  import opened Sequences
  import opened Sorting

  /** The test that triggered an issue. A test method knows its class-qualified
      name and where it is declared; any other kind of test only its name. */
  datatype Test =
    | TestMethod(name: string, nameWithClass: string, file: string, line: int)
    | OtherTest(name: string, file: string)
  {
    predicate IsTestMethod()
    {
      TestMethod?
    }
  }

  /** A deprecation, notice, warning or error triggered by a test (the seven
      event classes carry the same payload; their kind does not affect
      grouping). */
  datatype Issue = Issue(message: string, file: string, line: int, test: Test)

  /** One entry of the list map() returns: `['title' => ..., 'body' => ...]`. */
  datatype Element = Element(title: string, body: string)

  /** The content of one element before it is rendered. */
  datatype GroupedIssue = GroupedIssue(title: string, locations: seq<string>, tests: seq<string>)

  /** PHP_EOL. */
  const EOL: string := [LineFeed]
  const LocationsHeading: string := "Triggered at these locations:"
  const TestsHeading: string := "Triggered by these tests:"
  const Bullet: string := " - "

  /** `$file . ':' . $line`. */
  function Location(file: string, line: int): (r: string)
    ensures file + ":" <= r
    ensures forall i :: |file| < i < |r| ==> r[i] != ':'
  {
    file + ":" + IntToString(line)
  }

  /** Different places are never rendered as the same location. */
  lemma LocationInjective(f1: string, l1: int, f2: string, l2: int)
    requires Location(f1, l1) == Location(f2, l2)
    ensures f1 == f2 && l1 == l2
  {
    SplitAtLastSeparator(f1, IntToString(l1), f2, IntToString(l2), ':');
    IntToStringInjective(l1, l2);
  }

  /** FilteringIssueMapper::describe(). */
  function Describe(t: Test): (d: string)
    ensures !t.IsTestMethod() ==> d == t.name
  {
    if !t.IsTestMethod() then t.name
    else t.nameWithClass + " (" + t.file + ":" + IntToString(t.line) + ")"
  }

  /** The descriptor of a test method carries the test's own declared place:
      two test methods of the same qualified name are described alike exactly
      when they are declared at the same file and line. */
  lemma DescribeIdentifiesDeclaration(t1: Test, t2: Test)
    requires t1.IsTestMethod() && t2.IsTestMethod() && t1.nameWithClass == t2.nameWithClass
    ensures Describe(t1) == Describe(t2) <==> t1.file == t2.file && t1.line == t2.line
  {
    if Describe(t1) == Describe(t2) {
      var p := t1.nameWithClass + " (";
      assert Describe(t1) == p + Location(t1.file, t1.line) + ")";
      assert Describe(t2) == p + Location(t2.file, t2.line) + ")";
      assert Location(t1.file, t1.line) == Describe(t1)[|p|..|Describe(t1)| - 1];
      assert Location(t2.file, t2.line) == Describe(t2)[|p|..|Describe(t2)| - 1];
      LocationInjective(t1.file, t1.line, t2.file, t2.line);
    }
  }

  /** FilteringIssueMapper::shouldBeIgnored(), as a condition: some configured
      prefix starts the file name. */
  function Ignored(prefixes: seq<string>, file: string): (r: bool)
    ensures r <==> exists i :: 0 <= i < |prefixes| && prefixes[i] <= file
    ensures prefixes == [] ==> !r
  {
    var r := exists p :: p in prefixes && p <= file;
    assert r ==> exists i :: 0 <= i < |prefixes| && prefixes[i] <= file by {
      if r {
        var p :| p in prefixes && p <= file;
        var i :| 0 <= i < |prefixes| && prefixes[i] == p;
      }
    }
    assert (exists i :: 0 <= i < |prefixes| && prefixes[i] <= file) ==> r by {
      if i :| 0 <= i < |prefixes| && prefixes[i] <= file {
        assert prefixes[i] in prefixes;
      }
    }
    r
  }

  /** The events of all tests, in iteration order. */
  function Flatten(eventsGroupedByTest: seq<seq<Issue>>): (events: seq<Issue>)
    ensures forall e :: e in events <==> exists g :: g in eventsGroupedByTest && e in g
  {
    if eventsGroupedByTest == [] then []
    else
      var init := eventsGroupedByTest[..|eventsGroupedByTest| - 1];
      assert forall g :: g in eventsGroupedByTest <==> g in init || g == eventsGroupedByTest[|eventsGroupedByTest| - 1];
      Flatten(init) + eventsGroupedByTest[|eventsGroupedByTest| - 1]
  }

  /** The events whose file is not ignored, in order. */
  function Kept(prefixes: seq<string>, events: seq<Issue>): (kept: seq<Issue>)
    ensures forall e :: e in kept <==> e in events && !Ignored(prefixes, e.file)
  {
    if events == [] then []
    else
      var init, e := events[..|events| - 1], events[|events| - 1];
      assert forall x :: x in events <==> x in init || x == e;
      if Ignored(prefixes, e.file) then Kept(prefixes, init) else Kept(prefixes, init) + [e]
  }

  function KeptEvents(prefixes: seq<string>, eventsGroupedByTest: seq<seq<Issue>>): seq<Issue>
  {
    Kept(prefixes, Flatten(eventsGroupedByTest))
  }

  /** The events carrying one message, in order. */
  function WithMessage(events: seq<Issue>, message: string): (own: seq<Issue>)
    ensures forall e :: e in own <==> e in events && e.message == message
  {
    if events == [] then []
    else
      var init, e := events[..|events| - 1], events[|events| - 1];
      assert forall x :: x in events <==> x in init || x == e;
      if e.message == message then WithMessage(init, message) + [e] else WithMessage(init, message)
  }

  function Messages(events: seq<Issue>): seq<string>
  {
    seq(|events|, i requires 0 <= i < |events| => events[i].message)
  }

  function Locations(events: seq<Issue>): seq<string>
  {
    seq(|events|, i requires 0 <= i < |events| => Location(events[i].file, events[i].line))
  }

  function Descriptors(events: seq<Issue>): seq<string>
  {
    seq(|events|, i requires 0 <= i < |events| => Describe(events[i].test))
  }

  /** The group of one message: its distinct locations and distinct test
      descriptors, each sorted. */
  function GroupFor(kept: seq<Issue>, message: string): GroupedIssue
  {
    var own := WithMessage(kept, message);
    GroupedIssue(message, Sort(Unique(Locations(own))), Sort(Unique(Descriptors(own))))
  }

  /** One group per distinct message of the events that are not ignored, in
      the order in which the messages first occur. */
  function GroupedIssues(prefixes: seq<string>, eventsGroupedByTest: seq<seq<Issue>>): seq<GroupedIssue>
  {
    var kept := KeptEvents(prefixes, eventsGroupedByTest);
    var titles := Unique(Messages(kept));
    seq(|titles|, k requires 0 <= k < |titles| => GroupFor(kept, titles[k]))
  }

  /** `PHP_EOL . ' - ' . $item` for each item. */
  function Bullets(items: seq<string>): string
  {
    if items == [] then "" else Bullets(items[..|items| - 1]) + EOL + Bullet + items[|items| - 1]
  }

  function Body(locations: seq<string>, tests: seq<string>): (body: string)
    ensures LocationsHeading + Bullets(locations) <= body
    ensures |body| >= |TestsHeading + Bullets(tests)|
    ensures body[|body| - |TestsHeading + Bullets(tests)|..] == TestsHeading + Bullets(tests)
  {
    LocationsHeading + Bullets(locations) + EOL + EOL + TestsHeading + Bullets(tests)
  }

  function Render(g: GroupedIssue): Element
  {
    Element(g.title, Body(g.locations, g.tests))
  }

  /** The list FilteringIssueMapper::map() returns. */
  function Report(prefixes: seq<string>, eventsGroupedByTest: seq<seq<Issue>>): (elements: seq<Element>)
    ensures var titles := Unique(Messages(KeptEvents(prefixes, eventsGroupedByTest)));
      && |elements| == |titles|
      && forall k :: 0 <= k < |elements| ==> elements[k].title == titles[k]
  {
    var groups := GroupedIssues(prefixes, eventsGroupedByTest);
    GroupTitles(prefixes, eventsGroupedByTest);
    seq(|groups|, k requires 0 <= k < |groups| => Render(groups[k]))
  }

  // ---------------------------------------------------------------------
  // Properties of the report

  /** With no prefixes configured nothing is ignored. */
  lemma NoPrefixesIgnoreNothing(file: string)
    ensures !Ignored([], file)
  {
  }

  /** The groups follow the distinct messages of the kept events. */
  lemma GroupedIssuesShape(prefixes: seq<string>, eventsGroupedByTest: seq<seq<Issue>>)
    ensures var groups := GroupedIssues(prefixes, eventsGroupedByTest);
      var titles := Unique(Messages(KeptEvents(prefixes, eventsGroupedByTest)));
      |groups| == |titles| && forall k :: 0 <= k < |groups| ==> groups[k] == GroupFor(KeptEvents(prefixes, eventsGroupedByTest), titles[k])
  {
  }

  /** A message occurs among some events exactly when one of them carries it. */
  lemma MessagesMembers(events: seq<Issue>, m: string)
    ensures m in Messages(events) <==> exists e :: e in events && e.message == m
  {
    if m in Messages(events) {
      var i :| 0 <= i < |events| && Messages(events)[i] == m;
      assert events[i] in events;
    }
    if e :| e in events && e.message == m {
      var i :| 0 <= i < |events| && events[i] == e;
      assert Messages(events)[i] == m;
    }
  }

  /** Group titles are distinct. */
  lemma GroupTitlesDistinct(prefixes: seq<string>, eventsGroupedByTest: seq<seq<Issue>>)
    ensures var groups := GroupedIssues(prefixes, eventsGroupedByTest);
      forall i, j :: 0 <= i < j < |groups| ==> groups[i].title != groups[j].title
  {
    GroupedIssuesShape(prefixes, eventsGroupedByTest);
  }

  /** The titles of the groups are the distinct kept messages, in order. */
  lemma GroupTitles(prefixes: seq<string>, eventsGroupedByTest: seq<seq<Issue>>)
    ensures var groups := GroupedIssues(prefixes, eventsGroupedByTest);
      var titles := Unique(Messages(KeptEvents(prefixes, eventsGroupedByTest)));
      |groups| == |titles| && forall k :: 0 <= k < |groups| ==> groups[k].title == titles[k]
  {
  }

  /** Every group is titled with the message of some event outside the
      ignored paths, and every such message titles a group. */
  lemma GroupTitlesAreKeptMessages(prefixes: seq<string>, eventsGroupedByTest: seq<seq<Issue>>, m: string)
    ensures (exists k :: 0 <= k < |GroupedIssues(prefixes, eventsGroupedByTest)|
                         && GroupedIssues(prefixes, eventsGroupedByTest)[k].title == m)
        <==> (exists e :: e in Flatten(eventsGroupedByTest) && !Ignored(prefixes, e.file) && e.message == m)
  {
    var groups := GroupedIssues(prefixes, eventsGroupedByTest);
    var kept := KeptEvents(prefixes, eventsGroupedByTest);
    var titles := Unique(Messages(kept));
    GroupTitles(prefixes, eventsGroupedByTest);
    assert (exists k :: 0 <= k < |groups| && groups[k].title == m) <==> m in titles by {
      if m in titles {
        var k :| 0 <= k < |titles| && titles[k] == m;
        assert groups[k].title == m;
      }
    }
    MessagesMembers(kept, m);
  }

  /** Groups come in the order in which their messages first occur among the
      non-ignored events: every occurrence of a later group's message is
      preceded by an occurrence of an earlier group's message. */
  lemma GroupOrder(prefixes: seq<string>, eventsGroupedByTest: seq<seq<Issue>>, i: nat, j: nat, q: nat)
    requires i < j < |GroupedIssues(prefixes, eventsGroupedByTest)|
    requires q < |KeptEvents(prefixes, eventsGroupedByTest)|
    requires KeptEvents(prefixes, eventsGroupedByTest)[q].message == GroupedIssues(prefixes, eventsGroupedByTest)[j].title
    ensures exists p :: 0 <= p < q && KeptEvents(prefixes, eventsGroupedByTest)[p].message
                                      == GroupedIssues(prefixes, eventsGroupedByTest)[i].title
  {
    var groups := GroupedIssues(prefixes, eventsGroupedByTest);
    var kept := KeptEvents(prefixes, eventsGroupedByTest);
    var messages := Messages(kept);
    var titles := Unique(messages);
    GroupTitles(prefixes, eventsGroupedByTest);
    assert messages[q] == titles[j];
    FirstSeenBefore(messages, i, j, q);
    var p := FirstIndex(messages, titles[i]);
    assert kept[p].message == messages[p];
  }

  /** The locations of a group are exactly the places of the non-ignored
      events with its message, each once, in ascending order. */
  lemma GroupLocations(prefixes: seq<string>, eventsGroupedByTest: seq<seq<Issue>>, k: nat)
    requires k < |GroupedIssues(prefixes, eventsGroupedByTest)|
    ensures var g := GroupedIssues(prefixes, eventsGroupedByTest)[k];
      && Sorted(g.locations) && NoDuplicates(g.locations)
      && forall x :: x in g.locations <==>
           exists e :: e in Flatten(eventsGroupedByTest) && !Ignored(prefixes, e.file) && e.message == g.title
                       && x == Location(e.file, e.line)
  {
    GroupedIssuesShape(prefixes, eventsGroupedByTest);
    var g := GroupedIssues(prefixes, eventsGroupedByTest)[k];
    var own := WithMessage(KeptEvents(prefixes, eventsGroupedByTest), g.title);
    SortedDistinct(Locations(own));
    LocationsMembers(own);
  }

  /** The tests of a group are exactly the descriptors of the tests of the
      non-ignored events with its message, each once, in ascending order. */
  lemma GroupTests(prefixes: seq<string>, eventsGroupedByTest: seq<seq<Issue>>, k: nat)
    requires k < |GroupedIssues(prefixes, eventsGroupedByTest)|
    ensures var g := GroupedIssues(prefixes, eventsGroupedByTest)[k];
      && Sorted(g.tests) && NoDuplicates(g.tests)
      && forall x :: x in g.tests <==>
           exists e :: e in Flatten(eventsGroupedByTest) && !Ignored(prefixes, e.file) && e.message == g.title
                       && x == Describe(e.test)
  {
    GroupedIssuesShape(prefixes, eventsGroupedByTest);
    var g := GroupedIssues(prefixes, eventsGroupedByTest)[k];
    var own := WithMessage(KeptEvents(prefixes, eventsGroupedByTest), g.title);
    SortedDistinct(Descriptors(own));
    DescriptorsMembers(own);
  }

  /** Sorting the distinct values yields a duplicate-free ascending list of
      the same values. */
  lemma SortedDistinct(s: seq<string>)
    ensures Sorted(Sort(Unique(s))) && NoDuplicates(Sort(Unique(s)))
    ensures forall x :: x in Sort(Unique(s)) <==> x in s
  {
    var distinct := Unique(s);
    PermutationNoDuplicates(distinct, Sort(distinct));
    forall x ensures x in Sort(distinct) <==> x in distinct {
      assert x in multiset(Sort(distinct)) <==> x in multiset(distinct);
    }
  }

  lemma LocationsMembers(events: seq<Issue>)
    ensures forall x :: x in Locations(events) <==> exists e :: e in events && x == Location(e.file, e.line)
  {
    forall x | x in Locations(events)
      ensures exists e :: e in events && x == Location(e.file, e.line)
    {
      var i :| 0 <= i < |events| && Locations(events)[i] == x;
      assert events[i] in events;
    }
    forall e | e in events ensures Location(e.file, e.line) in Locations(events) {
      var i :| 0 <= i < |events| && events[i] == e;
      assert Locations(events)[i] == Location(e.file, e.line);
    }
  }

  lemma DescriptorsMembers(events: seq<Issue>)
    ensures forall x :: x in Descriptors(events) <==> exists e :: e in events && x == Describe(e.test)
  {
    forall x | x in Descriptors(events)
      ensures exists e :: e in events && x == Describe(e.test)
    {
      var i :| 0 <= i < |events| && Descriptors(events)[i] == x;
      assert events[i] in events;
    }
    forall e | e in events ensures Describe(e.test) in Descriptors(events) {
      var i :| 0 <= i < |events| && events[i] == e;
      assert Descriptors(events)[i] == Describe(e.test);
    }
  }

  /** An event in an ignored file contributes no location to any group. */
  lemma IgnoredEventListsNoLocation(prefixes: seq<string>, eventsGroupedByTest: seq<seq<Issue>>, e: Issue, k: nat)
    requires e in Flatten(eventsGroupedByTest) && Ignored(prefixes, e.file)
    requires k < |GroupedIssues(prefixes, eventsGroupedByTest)|
    ensures Location(e.file, e.line) !in GroupedIssues(prefixes, eventsGroupedByTest)[k].locations
  {
    GroupLocations(prefixes, eventsGroupedByTest, k);
    var g := GroupedIssues(prefixes, eventsGroupedByTest)[k];
    if Location(e.file, e.line) in g.locations {
      var e' :| e' in Flatten(eventsGroupedByTest) && !Ignored(prefixes, e'.file) && e'.message == g.title
                && Location(e.file, e.line) == Location(e'.file, e'.line);
      LocationInjective(e.file, e.line, e'.file, e'.line);
    }
  }

  /** Without any event outside the ignored paths (in particular without any
      event at all) the report is empty. */
  lemma NothingKeptNothingReported(prefixes: seq<string>, eventsGroupedByTest: seq<seq<Issue>>)
    requires forall e :: e in Flatten(eventsGroupedByTest) ==> Ignored(prefixes, e.file)
    ensures Report(prefixes, eventsGroupedByTest) == []
  {
    AllIgnoredNoneKept(prefixes, Flatten(eventsGroupedByTest));
  }

  lemma {:induction false} AllIgnoredNoneKept(prefixes: seq<string>, events: seq<Issue>)
    requires forall e :: e in events ==> Ignored(prefixes, e.file)
    ensures Kept(prefixes, events) == []
  {
    if events != [] {
      var init := events[..|events| - 1];
      assert events[|events| - 1] in events;
      assert forall e :: e in init ==> e in events;
      AllIgnoredNoneKept(prefixes, init);
    }
  }

  // ---------------------------------------------------------------------
  // The layout of a body

  function BulletLines(items: seq<string>): seq<string>
  {
    seq(|items|, i requires 0 <= i < |items| => Bullet + items[i])
  }

  /** Read line by line, a body is the locations heading, one bullet line per
      location, an empty line, the tests heading and one bullet line per
      test (provided no item contains a line break itself). */
  lemma BodyLayout(locations: seq<string>, tests: seq<string>)
    requires forall x :: x in locations ==> LineFeed !in x
    requires forall x :: x in tests ==> LineFeed !in x
    ensures Lines(Body(locations, tests))
         == [LocationsHeading] + BulletLines(locations) + ["", TestsHeading] + BulletLines(tests)
  {
    HeadingsHaveNoBreak();
    TwoSections(LocationsHeading, locations, TestsHeading, tests);
  }

  lemma HeadingsHaveNoBreak()
    ensures LineFeed !in LocationsHeading && LineFeed !in TestsHeading
  {
  }

  /** Two headed bullet lists separated by an empty line. */
  lemma TwoSections(heading1: string, items1: seq<string>, heading2: string, items2: seq<string>)
    requires LineFeed !in heading1 && LineFeed !in heading2
    requires forall x :: x in items1 ==> LineFeed !in x
    requires forall x :: x in items2 ==> LineFeed !in x
    ensures Lines(heading1 + Bullets(items1) + EOL + EOL + heading2 + Bullets(items2))
         == [heading1] + BulletLines(items1) + ["", heading2] + BulletLines(items2)
  {
    var top := heading1 + Bullets(items1);
    var bottom := heading2 + Bullets(items2);
    HeadedBullets(heading1, items1);
    HeadedBullets(heading2, items2);
    BlankLineBetween(top, heading2, Bullets(items2));
    SectionsLayout(top, bottom);
    BlankLineThenHeading([heading1] + BulletLines(items1), heading2, BulletLines(items2));
  }

  /** The empty line and the second heading, added one after the other, form
      one two-line block between the sections. */
  lemma BlankLineThenHeading(first: seq<string>, heading: string, rest: seq<string>)
    ensures first + [""] + ([heading] + rest) == first + ["", heading] + rest
  {
  }

  lemma BlankLineBetween(top: string, heading: string, bullets: string)
    ensures top + EOL + EOL + heading + bullets == top + [LineFeed] + ([LineFeed] + (heading + bullets))
  {
  }

  /** Two sections separated by an empty line. */
  lemma SectionsLayout(top: string, bottom: string)
    ensures Lines(top + [LineFeed] + ([LineFeed] + bottom)) == Lines(top) + [""] + Lines(bottom)
  {
    LinesAcrossBreak(top, [LineFeed] + bottom);
    LeadingBreak(bottom);
  }

  /** A string that starts with a line feed starts with an empty line. */
  lemma LeadingBreak(s: string)
    ensures Lines([LineFeed] + s) == [""] + Lines(s)
  {
    assert [LineFeed] + s == [] + [LineFeed] + s;
    LinesAcrossBreak([], s);
  }

  lemma {:induction false} HeadedBullets(heading: string, items: seq<string>)
    requires LineFeed !in heading
    requires forall x :: x in items ==> LineFeed !in x
    ensures Lines(heading + Bullets(items)) == [heading] + BulletLines(items)
  {
    if items == [] {
      assert heading + Bullets(items) == heading;
      LinesWithoutBreak(heading);
    } else {
      var init, last := items[..|items| - 1], items[|items| - 1];
      assert forall x :: x in init ==> x in items;
      HeadedBullets(heading, init);
      assert last in items;
      BulletHasNoBreak(last);
      var before := heading + Bullets(init);
      var line := Bullet + last;
      BulletsSnoc(heading, items);
      LinesAcrossBreak(before, line);
      LinesWithoutBreak(line);
      BulletLinesSnoc(items);
      HeadingThenBulletLines(Lines(heading + Bullets(items)), Lines(before), heading, BulletLines(init), BulletLines(items), line);
    }
  }

  /** The lines before the last bullet, then the last bullet's line, are the
      heading line followed by all bullet lines. */
  lemma HeadingThenBulletLines(whole: seq<string>, before: seq<string>, heading: string, initLines: seq<string>, lines: seq<string>, line: string)
    requires whole == before + [line] && before == [heading] + initLines && lines == initLines + [line]
    ensures whole == [heading] + lines
  {
  }

  lemma BulletsSnoc(heading: string, items: seq<string>)
    requires |items| > 0
    ensures heading + Bullets(items)
         == (heading + Bullets(items[..|items| - 1])) + [LineFeed] + (Bullet + items[|items| - 1])
  {
    var init, last := items[..|items| - 1], items[|items| - 1];
    assert Bullets(items) == Bullets(init) + EOL + Bullet + last;
    SplitLastBullet(heading, Bullets(init), EOL, Bullet, last);
  }

  /** Splitting off the last bullet: the heading and the earlier bullets,
      then the line break, then the bullet marker and the last item. */
  lemma SplitLastBullet(heading: string, earlier: string, eol: string, bullet: string, last: string)
    ensures heading + (earlier + eol + bullet + last) == (heading + earlier) + eol + (bullet + last)
  {
  }

  lemma BulletLinesSnoc(items: seq<string>)
    requires |items| > 0
    ensures BulletLines(items) == BulletLines(items[..|items| - 1]) + [Bullet + items[|items| - 1]]
  {
  }

  lemma BulletHasNoBreak(x: string)
    requires LineFeed !in x
    ensures LineFeed !in Bullet + x
  {
  }
}
