# Issue reporting and cached test discovery, in Dafny

This project models three pieces of PHPUnit and proves properties of them.

- **FilteringIssueMapper** builds part of the default text output. It takes the deprecations, notices, warnings and errors that tests triggered, grouped by test. It drops those raised in files under configured path prefixes. It then produces one `title`/`body` element per distinct message. The body lists the distinct `file:line` locations, sorted. It then lists the distinct descriptors of the triggering tests, sorted.
- **TestCollection** is the immutable, ordered list of tests discovered in a source file.
- **CachingTestFinder** wraps another test finder and caches its results at two levels:
  - in memory, for the rest of the process;
  - on disk, under a file named by the md5 of the source path, the source's contents and a version of the discovery code. The version is computed once per process from the discovery sources.

The model is organised by module:

- `IssueModel` (issue_model.dfy) is a reference definition of the report, stated directly over the kept events. It also holds the report's properties and the line-by-line layout of a body.
- `IssueGrouping` (issue_grouping.dfy) models the nested PHP array `message => file => line => list of tests`. The array is an insertion-ordered dictionary (`OrderedDicts.ODict`). This module proves what the grouping loop builds.
- `IssueMapper` (filtering_issue_mapper.dfy) is the class `FilteringIssueMapper`. Its loops are imperative methods, each proved to compute the reference report.
- `TestCollections` (test_collection.dfy) models the collection.
- `CachingFinder` (caching_test_finder.dfy) is built in two layers:
  - The pure function `Find` describes one `findTestsIn()` call over the whole state: the in-memory cache, the files on disk, the static version field, and the number of wrapped-finder calls.
  - The classes `CachingTestFinder`, `FileSystem`, `VersionField` and `WrappedFinder` mutate that state. `CachingTestFinder.FindTestsIn` is proved to move from the old state exactly as `Find` says.
- `Text`, `Sequences` and `Sorting` model PHP's string functions:
  - decimal rendering of ints and `implode`;
  - `Lines`, which the PHP code never calls: it states the line-by-line layout of a body (`IssueModel.BodyLayout`);
  - `array_unique`, which keeps first occurrences;
  - `sort`, in lexicographic order.

The model treats `md5`, `serialize` and `unserialize` as opaque functions held in a `Runtime` value. It also holds there the list of discovery source files that the directory scan of `cacheVersion()` returns. `Sound` states what the properties need from these functions: md5 returns 32 hex digits, and unserialize undoes serialize. No property assumes that md5 is free of collisions, which a 32-digit md5 cannot be. Instead, `ChangedContentsChangeEntry` proves that changed contents are hashed from a different string, so the cache file stays the same only through an md5 collision on those two strings.

A corrupt or truncated cache entry counts as a miss: `unserialize()` returns `false` for it, and `process()` treats `false` as a miss (CachingTestFinder.php:57). `Stored` yields `None` and the wrapped finder is consulted.

## Model

| member | source | states |
|---|---|---|
| IssueMapper.FilteringIssueMapper.constructor | src/TextUI/Output/Default/Issues/FilteringIssueMapper.php:42-45 | the mapper keeps exactly the given path prefixes |
| IssueMapper.FilteringIssueMapper.ShouldBeIgnored | src/TextUI/Output/Default/Issues/FilteringIssueMapper.php:134-143 | the loop answers true exactly when some configured prefix starts the file name |
| IssueModel.NoPrefixesIgnoreNothing | src/TextUI/Output/Default/Issues/FilteringIssueMapper.php:42 | with the default empty prefix list no file is ignored |
| IssueMapper.FilteringIssueMapper.Group | src/TextUI/Output/Default/Issues/FilteringIssueMapper.php:54-68 | the nested loops build the same array as recording, one by one, the events whose files are not ignored, in test and event order |
| OrderedDicts.ODict.Put | src/TextUI/Output/Default/Issues/FilteringIssueMapper.php:63-66 | assigning a key keeps the array well formed and sets that key's value; an existing key keeps its position, and a new key goes after all others |
| IssueGrouping.Has | src/TextUI/Output/Default/Issues/FilteringIssueMapper.php:62 | on a well-formed array, isset at (message, file, line) holds iff the message, the file under it and the line under that are all keys |
| IssueGrouping.Grouped | src/TextUI/Output/Default/Issues/FilteringIssueMapper.php:54-68 | the array built from the kept events is well formed at every level |
| IssueModel.Location | src/TextUI/Output/Default/Issues/FilteringIssueMapper.php:78 | a location is the file, a colon and then a line number with no colon in it |
| IssueModel.Body | src/TextUI/Output/Default/Issues/FilteringIssueMapper.php:91-101 | a body starts with the locations heading and its bullets and ends with the tests heading and its bullets |
| Text.IntToString | src/TextUI/Output/Default/Issues/FilteringIssueMapper.php:78 | a line number (here and in describe()) renders as a non-empty string of digits, with a leading minus exactly when it is negative |
| Text.Implode | src/Runner/TestFinder/CachingTestFinder.php:113 | joining no pieces gives the empty string, and joining one piece gives that piece |
| IssueGrouping.Record | src/TextUI/Output/Default/Issues/FilteringIssueMapper.php:62-66 | recording one event keeps the array well formed; a message already present keeps its position, and a new message goes after all others |
| IssueGrouping.RecordEffect | src/TextUI/Output/Default/Issues/FilteringIssueMapper.php:62-66 | after recording, a list exists at (message, file, line) iff it existed before or it is the event's own place; the event's test is appended to its own list, and every other list is unchanged |
| IssueGrouping.GroupedMessages | src/TextUI/Output/Default/Issues/FilteringIssueMapper.php:54-68 | the array's message keys are the distinct messages of the kept events, in order of first occurrence |
| IssueGrouping.GroupedTests | src/TextUI/Output/Default/Issues/FilteringIssueMapper.php:62-66 | the list at (message, file, line) holds the tests of exactly the kept events at that message, file and line, in event order, and is set iff that list is non-empty |
| IssueGrouping.TestsAt | src/TextUI/Output/Default/Issues/FilteringIssueMapper.php:66 | a test is in the list of a place iff an event with that message, place and test occurred |
| IssueMapper.FilteringIssueMapper.CollectLocationsAndTests | src/TextUI/Output/Default/Issues/FilteringIssueMapper.php:76-84 | the loops collect one location per (file, line) of a message, and the descriptors of that message's tests, file by file and line by line |
| IssueMapper.FilteringIssueMapper.CollectFile | src/TextUI/Output/Default/Issues/FilteringIssueMapper.php:77-83 | for one file, one `file:line` per line bucket and the descriptors of its tests, line by line |
| IssueMapper.FilteringIssueMapper.DescribeAll | src/TextUI/Output/Default/Issues/FilteringIssueMapper.php:80-82 | the descriptor of each test of a bucket, in order |
| IssueGrouping.FileLocationsMembers | src/TextUI/Output/Default/Issues/FilteringIssueMapper.php:76-78 | a location is collected iff it renders some (file, line) present in the message's buckets |
| IssueGrouping.FileLocationsDistinct | src/TextUI/Output/Default/Issues/FilteringIssueMapper.php:76-78 | the collected locations are pairwise distinct, because a file and a line key occur once each |
| IssueGrouping.FileDescriptorsMembers | src/TextUI/Output/Default/Issues/FilteringIssueMapper.php:76-82 | a descriptor is collected iff it describes a test recorded in one of the message's buckets |
| IssueGrouping.SameLocations | src/TextUI/Output/Default/Issues/FilteringIssueMapper.php:76-88 | a location is collected from the array's buckets for a message iff some kept event with that message is at that place |
| IssueGrouping.SameDescriptors | src/TextUI/Output/Default/Issues/FilteringIssueMapper.php:76-89 | a descriptor is collected from the array's buckets for a message iff it describes the test of some kept event with that message |
| IssueGrouping.DictionaryGroup | src/TextUI/Output/Default/Issues/FilteringIssueMapper.php:72-89 | what the code collects for a message from the array equals the group of the reference definition |
| Sequences.Unique | src/TextUI/Output/Default/Issues/FilteringIssueMapper.php:86 | array_unique yields each value once, and exactly the values of its input |
| Sequences.UniqueFirstSeenOrder | src/TextUI/Output/Default/Issues/FilteringIssueMapper.php:86 | array_unique keeps values in the order of their first occurrence |
| Sorting.Sort | src/TextUI/Output/Default/Issues/FilteringIssueMapper.php:88-89 | sort returns an ascending permutation of its input |
| Sorting.SortedUnique | src/TextUI/Output/Default/Issues/FilteringIssueMapper.php:88-89 | two sorted permutations of the same values are equal, so the order the values were collected in does not matter |
| IssueMapper.FilteringIssueMapper.RenderBody | src/TextUI/Output/Default/Issues/FilteringIssueMapper.php:91-101 | the body is the locations heading, a bullet per location, an empty line, the tests heading and a bullet per test |
| IssueMapper.FilteringIssueMapper.AppendBullets | src/TextUI/Output/Default/Issues/FilteringIssueMapper.php:93-95 | each loop appends a line break, ` - ` and the item, for every item in order |
| IssueMapper.FilteringIssueMapper.MapMessage | src/TextUI/Output/Default/Issues/FilteringIssueMapper.php:73-106 | one message's element: its title is the message, and its body renders the sorted locations and the sorted distinct descriptors collected from its buckets |
| IssueMapper.FilteringIssueMapper.MapMessages | src/TextUI/Output/Default/Issues/FilteringIssueMapper.php:72-107 | one element per message key of the array, in key order |
| IssueMapper.FilteringIssueMapper.Map | src/TextUI/Output/Default/Issues/FilteringIssueMapper.php:52-110 | map() returns exactly the reference report over its input |
| IssueMapper.ReportIsRendered | src/TextUI/Output/Default/Issues/FilteringIssueMapper.php:54-107 | rendering the message buckets of the array that map() builds gives the reference report, element by element |
| IssueModel.Ignored | src/TextUI/Output/Default/Issues/FilteringIssueMapper.php:134-143 | a file is ignored iff the prefix at some index of the list starts it; with no prefixes nothing is ignored |
| IssueModel.Report | src/TextUI/Output/Default/Issues/FilteringIssueMapper.php:52-110 | the list map() returns has one element per distinct kept message, titled with that message, in order of first occurrence |
| IssueModel.Describe | src/TextUI/Output/Default/Issues/FilteringIssueMapper.php:115-129 | a test that is not a test method is described by its name |
| IssueModel.DescribeIdentifiesDeclaration | src/TextUI/Output/Default/Issues/FilteringIssueMapper.php:123-128 | two test methods with the same qualified name get the same descriptor iff they are declared at the same file and line |
| IssueModel.LocationInjective | src/TextUI/Output/Default/Issues/FilteringIssueMapper.php:78 | `file:line` renders different places differently |
| IssueModel.Flatten | src/TextUI/Output/Default/Issues/FilteringIssueMapper.php:56-57 | the events iterated are exactly the events of some test |
| IssueModel.Kept | src/TextUI/Output/Default/Issues/FilteringIssueMapper.php:58-60 | an event is kept iff it occurred and its file is not ignored |
| IssueModel.WithMessage | src/TextUI/Output/Default/Issues/FilteringIssueMapper.php:62-66 | the events grouped under one message are exactly the events carrying it |
| IssueModel.GroupedIssuesShape | src/TextUI/Output/Default/Issues/FilteringIssueMapper.php:72 | the groups correspond one to one, in order, to the distinct kept messages |
| IssueModel.MessagesMembers | src/TextUI/Output/Default/Issues/FilteringIssueMapper.php:62 | a message is among the events' messages iff some event carries it |
| IssueModel.GroupTitles | src/TextUI/Output/Default/Issues/FilteringIssueMapper.php:103-105 | each element's title is its message: the titles are the distinct kept messages, in order |
| IssueModel.GroupTitlesDistinct | src/TextUI/Output/Default/Issues/FilteringIssueMapper.php:72 | no two elements share a title |
| IssueModel.GroupTitlesAreKeptMessages | src/TextUI/Output/Default/Issues/FilteringIssueMapper.php:54-72 | a message titles an element iff some event outside the ignored paths carries it |
| IssueModel.GroupOrder | src/TextUI/Output/Default/Issues/FilteringIssueMapper.php:54-72 | elements come in the order in which their messages first occur among the kept events |
| IssueModel.GroupLocations | src/TextUI/Output/Default/Issues/FilteringIssueMapper.php:76-88 | a group's locations are sorted and duplicate free; they are exactly the places of the kept events with its message |
| IssueModel.GroupTests | src/TextUI/Output/Default/Issues/FilteringIssueMapper.php:80-89 | a group's tests are sorted and duplicate free; they are exactly the descriptors of the tests of the kept events with its message |
| IssueModel.SortedDistinct | src/TextUI/Output/Default/Issues/FilteringIssueMapper.php:86-89 | array_unique followed by sort gives a sorted, duplicate-free list of the same values |
| IssueModel.LocationsMembers | src/TextUI/Output/Default/Issues/FilteringIssueMapper.php:78 | a location is listed iff some event is at that place |
| IssueModel.DescriptorsMembers | src/TextUI/Output/Default/Issues/FilteringIssueMapper.php:81 | a descriptor is listed iff some event's test has it |
| IssueModel.IgnoredEventListsNoLocation | src/TextUI/Output/Default/Issues/FilteringIssueMapper.php:58-60 | an event in an ignored file contributes no location to any element |
| IssueModel.NothingKeptNothingReported | src/TextUI/Output/Default/Issues/FilteringIssueMapper.php:52-110 | with no event outside the ignored paths, and in particular with no event at all, map() returns an empty list |
| IssueModel.AllIgnoredNoneKept | src/TextUI/Output/Default/Issues/FilteringIssueMapper.php:58-60 | if every event is ignored, none is kept |
| IssueModel.BodyLayout | src/TextUI/Output/Default/Issues/FilteringIssueMapper.php:91-101 | read line by line, a body is: the locations heading, one ` - ` line per location, an empty line, the tests heading and one ` - ` line per test (items without line breaks) |
| IssueModel.HeadedBullets | src/TextUI/Output/Default/Issues/FilteringIssueMapper.php:93-101 | a heading followed by bullets splits into the heading line and one line per item |
| TestCollections.TestCollection.FromArray | src/Runner/TestFinder/TestCollection.php:32-40 | the collection built from a list gives back that list |
| TestCollections.TestCollection.AsArray | src/Runner/TestFinder/TestCollection.php:45-48 | the list returned determines the collection: nothing else is kept |
| TestCollections.TestCollection.Count | src/Runner/TestFinder/TestCollection.php:50-53 | count() is the number of tests in asArray() |
| TestCollections.TestCollection.IsEmpty | src/Runner/TestFinder/TestCollection.php:55-58 | true iff the collection holds no tests |
| TestCollections.TestCollection.IsNotEmpty | src/Runner/TestFinder/TestCollection.php:60-63 | true iff the collection holds some test |
| TestCollections.TestCollection.MergeWith | src/Runner/TestFinder/TestCollection.php:70-78 | the merge lists this collection's tests followed by the other's |
| TestCollections.FromAsArray | src/Runner/TestFinder/TestCollection.php:32-48 | rebuilding a collection from asArray() gives the same collection |
| TestCollections.MergeCount | src/Runner/TestFinder/TestCollection.php:70-78 | the count of a merge is the sum of the counts |
| TestCollections.EmptyOrNot | src/Runner/TestFinder/TestCollection.php:55-63 | isEmpty() holds iff there are no tests, and isNotEmpty() is its negation |
| TestCollections.MergeWithEmpty | src/Runner/TestFinder/TestCollection.php:70-78 | merging with an empty collection, on either side, gives the other collection |
| TestCollections.MergeAssociative | src/Runner/TestFinder/TestCollection.php:70-78 | merging is associative |
| CachingFinder.CachingTestFinder.constructor | src/Runner/TestFinder/CachingTestFinder.php:36-42 | a new finder has an empty in-memory cache and keeps its directory and wrapped finder |
| CachingFinder.CachingTestFinder.FindTestsIn | src/Runner/TestFinder/CachingTestFinder.php:44-51 | the result and the new state (memory, disk, version, wrapped-finder calls) are exactly those `Find` gives for the old state |
| CachingFinder.CachingTestFinder.Process | src/Runner/TestFinder/CachingTestFinder.php:53-66 | for a file missing from memory: the stored collection if any, else the wrapped finder's, remembered and written; a discovery error is returned and nothing is remembered |
| CachingFinder.CachingTestFinder.Read | src/Runner/TestFinder/CachingTestFinder.php:68-85 | the collection unserialized from the file's cache file; none if the file is missing or does not unserialize |
| CachingFinder.CachingTestFinder.Write | src/Runner/TestFinder/CachingTestFinder.php:87-93 | the serialized collection is stored under the file's cache path, and no other file changes |
| CachingFinder.CachingTestFinder.CacheFile | src/Runner/TestFinder/CachingTestFinder.php:95-98 | the cache path is the directory, a separator and the md5 of path NUL contents NUL version |
| CachingFinder.CachingTestFinder.CacheVersion | src/Runner/TestFinder/CachingTestFinder.php:100-116 | returns the memoized version if there is one; otherwise the md5 of every discovery source's path and contents joined by NUL, which it then memoizes |
| CachingFinder.FileSystem.PutContents | src/Runner/TestFinder/CachingTestFinder.php:89-92 | file_put_contents replaces one file's contents and leaves the others |
| CachingFinder.WrappedFinder.FindTestsIn | src/Runner/TestFinder/CachingTestFinder.php:63 | the wrapped finder's result depends only on the path and the contents, and each call is counted |
| CachingFinder.Find | src/Runner/TestFinder/CachingTestFinder.php:44-66 | one findTestsIn() call calls the wrapped finder at most once, and only when the file is not in memory; a successful result is remembered in memory |
| CachingFinder.CacheFilePath | src/Runner/TestFinder/CachingTestFinder.php:95-98 | the cache file lies in the cache directory, and its name is the md5 of path NUL contents NUL version |
| CachingFinder.Contents | src/Runner/TestFinder/CachingTestFinder.php:97 | a missing file reads as the empty string |
| CachingFinder.SourceBuffer | src/Runner/TestFinder/CachingTestFinder.php:106-111 | the buffer holds, for each source in order, its path followed by its contents |
| CachingFinder.CurrentVersion | src/Runner/TestFinder/CachingTestFinder.php:100-116 | the memoized version if set, otherwise the hash of the source buffer |
| CachingFinder.Stored | src/Runner/TestFinder/CachingTestFinder.php:68-85 | no file at the path means no stored collection |
| CachingFinder.FingerprintInjective | src/Runner/TestFinder/CachingTestFinder.php:97 | the hashed string determines the path, the contents and the version, provided the path and version contain no NUL |
| CachingFinder.FindRemembers | src/Runner/TestFinder/CachingTestFinder.php:44-66 | after a successful call the file is in memory with the returned collection; a failed call leaves memory unchanged |
| CachingFinder.FindMemoryHit | src/Runner/TestFinder/CachingTestFinder.php:46-50 | an in-memory hit returns the remembered collection and changes nothing |
| CachingFinder.FindDiskHit | src/Runner/TestFinder/CachingTestFinder.php:55-61 | a disk hit returns the stored collection, does not call the wrapped finder and writes nothing |
| CachingFinder.FindFullMiss | src/Runner/TestFinder/CachingTestFinder.php:63-65 | a miss calls the wrapped finder once; on success its collection is returned, remembered and written serialized to the cache file, and on failure the error is returned and nothing is written |
| CachingFinder.FindIsLocal | src/Runner/TestFinder/CachingTestFinder.php:44-66 | a call changes the in-memory entry of its own file only, and at most the one cache file of that file |
| CachingFinder.FindTwice | src/Runner/TestFinder/CachingTestFinder.php:44-51 | a second call for the same file returns the same collection and changes nothing |
| CachingFinder.NewProcessReusesDisk | src/Runner/TestFinder/CachingTestFinder.php:27-116 | a new process (empty memory, no version) gets the same collection from disk without calling the wrapped finder, provided neither the file nor the discovery sources lie in the cache directory |
| CachingFinder.CachePathInDirectory | src/Runner/TestFinder/CachingTestFinder.php:95-98 | every cache path starts with the cache directory and a separator |
| CachingFinder.CacheFileNameHasNoSeparator | src/Runner/TestFinder/CachingTestFinder.php:95-98 | when md5 returns hex digests, no separator follows the directory prefix, so the cache file lies directly in the cache directory |
| CachingFinder.Fingerprint | src/Runner/TestFinder/CachingTestFinder.php:97 | the hashed string starts with the path and a NUL and ends with a NUL and the version |
| CachingFinder.VersionHash | src/Runner/TestFinder/CachingTestFinder.php:113 | when md5 returns hex digests, the version is a 32-digit hex digest |
| CachingFinder.SourceBufferIgnoresOtherFiles | src/Runner/TestFinder/CachingTestFinder.php:106-111 | the version depends only on the contents of the discovery sources |
| CachingFinder.ChangedContentsChangeEntry | src/Runner/TestFinder/CachingTestFinder.php:97 | changed contents are hashed from a different string, so the two cache files coincide exactly when md5 collides on those two strings |

## Left out

- Filesystem I/O is a map from path to contents. This covers `is_file`, `file_get_contents` and `file_put_contents`. A missing file reads as the empty string, which is what `false` becomes when concatenated or imploded.
- `Filesystem::createDirectory` in the CachingTestFinder constructor is not modelled.
- The directory scan of `cacheVersion()` (FileIteratorFacade) is not modelled. Its outcome is the `finderSources` list of the runtime.
- md5, serialize and unserialize are opaque functions. Their required behaviour is stated by `Sound`.
- A cache entry that exists but cannot be read is not modelled. There `file_get_contents` returns `false`, and under strict types `unserialize(false, …)` throws a TypeError instead of counting as a miss. In the model every existing entry has readable contents.
- An unserialize that yields something other than a collection or `false` is not modelled: under `allowed_classes` such a value would reach a typed return.
- An exception from the wrapped finder is modelled as a `Failure` result that propagates unchanged. The in-memory cache and the disk are untouched.
- Concurrent processes writing the same cache file are not modelled.
- Sorting.Sort: uses plain lexicographic order by character. PHP's `sort()` compares two numeric strings as numbers, and that is not modelled.
- IssueGrouping.Record: message and file keys stay strings. PHP turns decimal-integer string keys into int keys, and that is not modelled.
- The event classes (deprecation, notice, warning, error and their PHP variants) are one record type, `IssueModel.Issue`. The category does not affect grouping.
- `NoDataSetFromDataProviderException`, which `nameWithClass()` can raise inside `describe()`, is not modelled. The qualified name is a field of `IssueModel.Test`.
- Test.php is not part of this model. `IssueModel.Test` has two forms: `TestMethod(name, nameWithClass, file, line)` and `OtherTest(name, file)`. `TestCollections.Test` is one record `Test(name, owningScope, file, line)`, where the owning scope is optional.
- PHP strings are byte strings; the model uses character strings, so byte strings that are not valid UTF-8 (such as some file paths) are not modelled. `Text.LessEq` agrees with strcmp only on valid UTF-8.
- PHP_EOL is fixed to "\n", and DIRECTORY_SEPARATOR to "/".
- The `getIterator()` method of TestCollection and its TestCollectionIterator are not modelled. Iteration visits `asArray()` in order.
- ParsingTestFinder and TestFindingVisitor are not modelled. They are a wrapper over an external parser library and an empty visitor stub.
