# A verified model of luastatus

luastatus is a status bar daemon: one thread per widget runs a plugin, plugins call Lua functions, and
what these return is drawn by a "barlib"; a further thread watches for clicks and hands them back to the
widgets. This project models the parts of it that are algorithms and protocols rather than calls into
other libraries, in Dafny, and proves what they are supposed to guarantee. `dafny verify dfyconfig.toml`
checks everything.

| file | what it models |
|---|---|
| `ParseInt.dfy` | parsing of unsigned integers, and `%zu` as its inverse |
| `LuaVm.dfy` | Lua values and a Lua stack with a limited number of slots |
| `I3Trees.dfy` | i3 click events as a machine over JSON trees: nesting limit, routing, independence of events |
| `I3Events.dfy` | the event watcher of the i3 barlib as written: tokens, a string array, a cursor; it refines `I3Trees` |
| `I3Segments.dfy` | how the i3 barlib turns tables into JSON, against a reader of JSON objects |
| `I3Line.dfy` | what a reader of JSON makes of whole lines that the i3 barlib draws, over any calls |
| `CallProtocol.dfy` | threads, Lua states, mutexes and the separate state of the core, as a transition system |
| `CallWords.dfy`, `EventWords.dfy` | the exact sequences of actions that make up a call of cb() and the handling of an event, over all runs |
| `LockOrder.dfy` | threads that lock in rank order always finish; the lock scripts of the core and of plugins are in order |
| `Comm.dfy` | the shared string of a widget and its separate-state event handler, atomic operations and runs of them |
| `Conq.dfy`, `ConqProtocol.dfy` | the coalescing queue: its operations on arrays and a bit mask, and all interleavings of producers and the consumer |
| `Multiplex.dfy` | what the multiplex plugin puts into the queue and what it makes of what comes out |
| `Barlib.dfy` | double buffering and skipped redraws in the stdout, lemonbar, dwm and i3 barlibs |
| `Joining.dfy` | putting texts together with separators |
| `Lemonbar.dfy` | lemonbar markup: escaping, sanitizing with click-tag prefixes, parsing of commands |
| `UnixSock.dfy` | the server of the unixsock plugin: parallel arrays, compaction, incremental search for newlines |
| `WideChar.dfy` | width, truncation and repair of multibyte strings over an arbitrary stateless decoder |
| `StrSet.dfy` | in-place merge sort, binary search, the string set, and how the network plugin uses it |
| `Cvt.dfy` | conversion of GVariants to Lua values under a recursion limit and a stack budget |
| `UrlCode.dfy` | percent-coding (sections 2.1 and 2.3 of RFC 3986) |
| `JsonEscape.dfy` | the two JSON string escapers, against a reader after section 7 of RFC 8259 |
| `Xkb.dfy` | splitting of keyboard layout names |
| `LsString.dfy` | the growable buffer and the packed string array of libls |
| `Common.dfy`, `Wrappers.dfy` | limits of C types, hexadecimal digits and the like; `Option` |

Code that changes things in place is a class or a method over arrays, proved against specification
functions; the lemmas are about those functions. Protocols of several threads are transition systems, and
what is said about them holds for every interleaving. Calls into other libraries are inputs: what
`poll()`, `read()`, `accept()`, `getifaddrs()`, the JSON parser and the decoder of multibyte characters
deliver, what Lua code does, and whether output can be written to. A `char` stands for a byte.

What the model shows to differ from what the source or its documentation says:

* `luastatus/README.rst:116-119` promises that `cb()` and `event()` of one widget never overlap. They can,
  exactly for widgets whose `event` is a string (`CallProtocol.OverlapExactly`).
* A round of the unixsock loop fails an assertion exactly if it accepts a client after it has dropped one
  (`UnixSock.Server.Round`); servers for more than one client, and only those, can get there
  (`UnixSock.AssertionFailsExactly`).
* A barlib that has not drawn anything yet skips the first update if it leaves the texts empty, so that skipping
  can be told from always drawing (`Barlib.FirstDrawIsMissing`), unless the text for errors is empty and the
  first update that does not leave the texts empty fails (`Barlib.SameFromTheStart`).

## Model

| member | source | states |
|---|---|---|
| ParseInt.StrtouB | libls/ls_parse_int.c:25-51 | the loop gives -ERANGE exactly if the digits denote more than INT_MAX, and otherwise their value and where they end; no intermediate value exceeds an int |
| ParseInt.OverflowIsFinal | libls/ls_parse_int.c:35-44 | once the digits read exceed INT_MAX, so does the whole run of digits, which makes stopping early right |
| ParseInt.FullStrtou | libls/ls_parse_int.c:53-67 | a string parses exactly if it is a non-empty numeral for a number up to INT_MAX, and then to that number |
| ParseInt.FullStrtouB | libls/ls_parse_int.c:53-67 | the code that checks where the digits end computes that |
| ParseInt.PrintedIndexParses | libls/ls_parse_int.c:25-67 | the printed form of an index parses back to it exactly for indices up to INT_MAX |
| I3Trees.ElemLookup | barlibs/i3/event_watcher.c:125-133 | in the Lua value of an array, element n has key n also after nulls, which leave holes |
| I3Trees.EntryLookup | barlibs/i3/event_watcher.c:134-158 | in the Lua value of an object the last of several entries with a key wins, and if that one is null there is no entry |
| I3Trees.FoundInLua | barlibs/i3/event_watcher.c:121-178 | along every path of keys, at any nesting, a Lua program finds a number, string or boolean of the JSON value as itself, a container as a table, and nil for what is null or not there |
| I3Trees.LuaRepresents | barlibs/i3/event_watcher.c:121-178 | so the Lua value represents the JSON value: elements by position, entries by the last occurrence of their keys, and nothing else |
| I3Trees.NextFlat | barlibs/i3/event_watcher.c:199-234 | each event accepted adds itself to the flat form of the trees under construction, and moves the depth as the code does |
| I3Trees.NextWidget | barlibs/i3/event_watcher.c:262-291 | only strings at the top level of an event object, under the key "name", change which widget the event is for |
| I3Trees.ValueRun | barlibs/i3/event_watcher.c:199-234 | the events of any JSON value add exactly that value to what is under construction, unless it is nested too deep: then, and only then, parsing is stopped |
| I3Trees.NoEarlyCall | barlibs/i3/event_watcher.c:199-234 | no call is made before the last event of an element has been delivered |
| I3Trees.ElementRun | barlibs/i3/event_watcher.c:180-197 | what an element of the stream does depends on nothing that came before it, and leaves nothing behind |
| I3Trees.NonObjectRun | barlibs/i3/event_watcher.c:199-218 | an element of the outer array that is not an object stops the event watcher |
| I3Trees.StreamRun | barlibs/i3/event_watcher.c:180-234 | however much of a stream of JSON values has been delivered, the calls made are those that its complete elements make one by one, up to the first one that is no object, too deep or has too long an array; that one stops the watcher, when it is complete if not before, and nothing else does |
| I3Trees.WholeRun | barlibs/i3/event_watcher.c:199-234 | the same from the initial context, with the opening bracket of the outer array; all these events are ones a parser of well-formed JSON delivers; and the arguments of the calls represent the events |
| I3Trees.WidgetOfName | barlibs/i3/event_watcher.c:262-291 | the widget is what the last string-valued top-level "name" entry parses to |
| I3Trees.RoutedExactly | barlibs/i3/event_watcher.c:180-197 | an event goes to widget k if and only if that entry is a numeral for k, k fits an int, and there is such a widget |
| I3Trees.CallsDeliver | barlibs/i3/event_watcher.c:180-197 | of a stream's elements each that is addressed to a widget, and no other, gets one call, in their order, to the widget its last string-valued name is a numeral for, with an argument in which everything in it can be found |
| I3Trees.PrintedNameRoutesBack | barlibs/i3/i3.c:231-235 | the name printed into the segments of widget k brings events back to k, with the whole event as argument, for every k up to INT_MAX, which covers every widget there can be |
| I3Events.PushObject | barlibs/i3/event_watcher.c:121-178 | rebuilding undoes flattening: from the flat form of any JSON value it pushes exactly that value, ends at its last token, stays within depth + 2 slots, and fails exactly where some array's indices do not fit Lua |
| I3Events.PushElem | barlibs/i3/event_watcher.c:128-132 | an element is rebuilt and stored under its index; the assertion about the index fails exactly where it does not fit Lua |
| I3Events.PushArray | barlibs/i3/event_watcher.c:125-133 | the same for an array, of any length, up to its closing token |
| I3Events.PushMap | barlibs/i3/event_watcher.c:134-158 | the same for an object |
| I3Events.PushEntry | barlibs/i3/event_watcher.c:134-158 | pushing the value before the key gives the same table and saves a slot per level |
| I3Events.RebuildEvent | barlibs/i3/event_watcher.c:180-197 | an event of any depth within the limit needs at most 11 of the 15 guaranteed slots (include/barlib_data.h:142) |
| I3Events.Context.Feed | barlibs/i3/event_watcher.c:242-306 | every callback takes the context to one that represents the next state of the tree machine, and returns whether that goes on; the assertions about the cursor and the default case are never reached |
| I3Events.Context.CallbackString | barlibs/i3/event_watcher.c:262-274 | the same for strings, which may set the widget |
| I3Events.Context.CallbackMapKey | barlibs/i3/event_watcher.c:281-291 | the same for keys, which are compared with "name" at depth 1 |
| I3Events.Context.TokenHelper | barlibs/i3/event_watcher.c:199-234 | the depth counter and the tokens stay the flat form of what is open; events are dispatched exactly when one is complete |
| I3Events.Context.Flush | barlibs/i3/event_watcher.c:180-197 | the call made is the one the tree machine makes for the event, and the context is as fresh as the initial one afterwards |
| I3Events.EventWatcher | barlibs/i3/event_watcher.c:308-367 | for all events that a parser of well-formed JSON delivers, the calls made are those of the tree machine |
| I3Events.WatchStream | barlibs/i3/event_watcher.c:308-367 | for every stream of JSON values, and every part of it that has been delivered, the calls made are exactly those of its complete values, each on its own, up to the first bad one, and their arguments represent the events at any nesting; the watcher goes on as long as none is bad |
| I3Segments.AppendSegment | barlibs/i3/i3.c:226-306 | the loop appends the text of a segment, after a comma if it is not the first one, or fails, exactly as the lemmas below say |
| I3Segments.AppendSegments | barlibs/i3/i3.c:348-369 | the elements of an array become segments with commas between them; nil is skipped, and anything but a table makes the whole invalid |
| I3Segments.AppendTable | barlibs/i3/i3.c:328-376 | so does the table given to set(), which is empty, one segment, or an array of them |
| I3Segments.ValueText | barlibs/i3/i3.c:262-290 | what is appended for a value is the text of the scalar it becomes, and there is none exactly if it does not become one |
| I3Segments.MeaningOfScalar | barlibs/i3/i3.c:262-290 | a number, string, boolean or nil that is written is read as itself; other values and numbers that are not finite are refused |
| I3Segments.MembersMean | barlibs/i3/i3.c:240-295 | writing fails exactly for a key that is no string, or a bad value under another key than "name"; otherwise the members are read as the table's entries without "name", in their order and with their values |
| I3Segments.ReadSegment | barlibs/i3/i3.c:226-306 | a reader of JSON gets out of a segment, whatever strings are in it, the decimal index of the widget under "name", then every entry of the table but "name" in order with its value, then "separator": false exactly if it is asked for and the table has no "separator"; and it stops at the end of the segment |
| I3Line.SegmentsAreJoined | barlibs/i3/i3.c:348-369 | an array's text is the texts of its segments, in order, with commas between them, and there is none exactly if an element is neither nil nor a table of which a segment can be made |
| I3Line.TableTextIs | barlibs/i3/i3.c:328-376 | the same for any table given to set() |
| I3Line.ReadJoined | barlibs/i3/i3.c:157-183 | a reader of JSON arrays gets back any objects that are joined with commas between brackets |
| I3Line.ErrorTextIs | barlibs/i3/i3.c:389-407 | the text for errors is one object with the members full_text, color, background and, if asked for, separator |
| I3Line.ReadLine | barlibs/i3/i3.c:157-183 | a reader of JSON gets out of a line drawn all segments of all widgets, in their order and with their meaning, and stops at the comma after them |
| I3Line.ReadSession | barlibs/i3/i3.c:328-407 | after any calls of set() and set_error() the line is read as what the last call for each widget says: its segments, nothing, or the error |
| CallProtocol.WidgetStepFits | luastatus/luastatus.c:1016-1071 | no step of a widget thread fails an assertion about its Lua stack, and mutexes only move from or to that thread |
| CallProtocol.EventStepFits | luastatus/luastatus.c:1073-1144 | the same for the event watcher, in a widget's state and in the separate state |
| CallProtocol.InvStep | luastatus/luastatus.c:1016-1163 | every action of every thread keeps the invariant: who holds what, stack heights and the current widget are what the places of the threads say |
| CallProtocol.Safety | luastatus/luastatus.c:1016-1143 | over every interleaving no assertion fails, a Lua stack has height 1 whenever its mutex is free, and communicate() works on the Comm of the widget whose event runs, which is never a stillborn one's |
| CallProtocol.BarlibCallsExclude | luastatus/luastatus.c:1029-1062 | at most one thread at a time is inside the barlib's set() and set_error() |
| CallProtocol.Progress | luastatus/luastatus.c:1016-1163 | in every state of the invariant that is not final some thread can act without beginning a new call, and that brings the end nearer |
| CallProtocol.CanFinish | luastatus/luastatus.c:1016-1163 | from every reachable state all calls that have begun can be finished without new ones, and all threads can come to their ends, with every mutex free |
| CallProtocol.OverlapRun | luastatus/luastatus.c:902-912 | a run in which a string event of a widget executes while its cb() does |
| CallProtocol.OverlapExactly | luastatus/README.rst:116-119 | cb() and event() of a widget can overlap if and only if its event is a string |
| EventWords.EventsAreHandled | luastatus/luastatus.c:1073-1144 | over every interleaving: while an event is handled, the actions about it since it began are those its point in the code implies; once it is over, it was cancelled, or sent and, if the widget has an event function or string, handled, and if that failed, set_error() was called with the barlib locked before the Lua state was unlocked |
| EventWords.WholeEventRuns | luastatus/luastatus.c:1073-1144 | each of these sequences can happen, and leaves the state as it was |
| EventWords.EventWordsExactly | luastatus/luastatus.c:1073-1144 | between two events, the sequence for the last event of a widget can be a given one if and only if it is one of these |
| EventWords.EventsOfWidget | luastatus/luastatus.c:1104-1128 | some reachable state runs the event of a widget if and only if it is a function or a string |
| EventWords.StartsInOrder | luastatus/luastatus.c:1284-1325 | over every interleaving: the event watcher begins when each widget, in order, has its thread or, if it is stillborn, its error shown; the end comes after all have been waited for |
| CallWords.ResultsAreShown | luastatus/luastatus.c:1016-1071 | over every interleaving: a call of cb() that is over was cancelled, or made and its result or error shown with the barlib locked, with set_error() after a non-fatal failure of set(), before the widget was unlocked; a thread that is over has shown that its plugin returned |
| CallWords.WholeCallRuns | luastatus/luastatus.c:1016-1071 | each such sequence can happen, and leaves the state as it was |
| CallWords.CallWordsExactly | luastatus/luastatus.c:1016-1071 | between two calls, the sequence for the last call of a widget can be a given one if and only if it is one of these and the widget is not stillborn |
| LockOrder.InvNext | DOCS/design/locking-patterns.md:1-70 | threads that run well-ordered scripts keep holding disjoint sets of mutexes and stay well-ordered |
| LockOrder.Progress | DOCS/design/locking-patterns.md:1-70 | whoever waits, waits for a thread that wants, if anything, a mutex of higher rank; so some thread in a script can act |
| LockOrder.AllCanFinish | DOCS/design/locking-patterns.md:1-70 | from every such state all threads, however many, can run to the end, with every mutex free |
| LockOrder.ScriptsAreOrdered | plugins/multiplex/multiplex.c:158-203 | the lock scripts of cb() and event(), of widgets and of data sources of multiplexes nested to any depth, with whatever communicate(), call_event() and plugin functions their Lua code calls, and inside a mutex of the plugin as in dbus, are well-ordered |
| LockOrder.CallIsOrdered | luastatus/luastatus.c:1029-1128 | running Lua code under its state's mutex, and then locking the barlib or a queue or not, respects the order |
| LockOrder.SingleIsOrdered | plugins/multiplex/multiplex.c:355-377 | so does locking a single mutex, as fetching from a queue, setting up data sources and publishing them, or telling the barlib of a dead widget do |
| Comm.Cell.Set | luastatus/comm.c:44-49 | the cell holds the new string in a new allocation |
| Comm.Cell.CompareAndSwap | luastatus/comm.c:51-64 | it swaps exactly if the cell holds the expected string, and otherwise changes nothing |
| Comm.Cell.Communicate | luastatus/luastatus.c:588-637 | each action has the documented effect and answer on the cell; missing and ill-typed arguments and unknown actions are Lua errors and leave it alone |
| Comm.OneAnswer | luastatus/luastatus.c:588-637 | in terms of the arguments: who gets an error, what a read and a swap are answered, and what a call sets the string to |
| Comm.Session | luastatus/luastatus.c:588-637 | over any calls: a read or read_and_clear is answered what was last written or swapped in, or nothing if it was taken out since; a swap succeeds exactly if that is what it expects; and this is what the cell holds |
| Comm.ReadsAroundSwap | luastatus/luastatus.c:618-633 | a swap succeeds exactly if a read just before it is answered what it expects, and a read just after it is then answered what it swapped in |
| Comm.NoLostUpdate | luastatus/comm.c:51-64 | where everyone only swaps in f of the value they expect, the value is f applied once per successful swap, whatever the interleaving |
| Comm.Mailbox | luastatus/luastatus.c:599-633 | used as a mailbox (append by swapping, take by read_and_clear) the string loses and repeats nothing |
| CoalescingQueue.SetBitFits | plugins/multiplex/conq.c:80 | marking a slot below the number of slots keeps the mask below 2 to that number |
| CoalescingQueue.BitOfSetBit | plugins/multiplex/conq.c:80 | marking a slot marks it and changes no other bit |
| CoalescingQueue.Conq.UpdateSlot | plugins/multiplex/conq.c:62-85 | an update changes the slot and marks it, and signals exactly if the slot was different |
| CoalescingQueue.Conq.FetchUpdates | plugins/multiplex/conq.c:87-112 | a fetch copies exactly the marked slots, leaves the other copies, and clears the mask |
| ConqProtocol.InvStep | plugins/multiplex/conq.c:62-112 | every action of producers and the consumer, spurious wake-ups included, keeps the invariant |
| ConqProtocol.Agreement | plugins/multiplex/conq.c:62-112 | in every reachable state a clear bit means that the consumer's copy is the slot and the last value written; bits of no slot are clear; and a consumer asleep and not signalled has nothing to fetch (no lost wake-up) |
| ConqProtocol.SeenIsSubsequence | plugins/multiplex/runtime_data.c:36-46 | what the consumer sees of a slot is a subsequence of what was written to it, and never "empty" after the start |
| ConqProtocol.CopyingIsFetching | plugins/multiplex/conq.c:99-107 | the steps the consumer takes while it holds the mutex amount to one fetch of all marked slots, from whatever slot on |
| ConqProtocol.Drains | plugins/multiplex/conq.c:62-112 | from every state the threads already involved can carry on until the consumer has the latest of every slot |
| Multiplex.RecvCallback | plugins/multiplex/multiplex.c:229-279 | what a data source did becomes the update of its slot |
| Multiplex.ResultsShow | plugins/multiplex/multiplex.c:229-314 | through slot and "updates" table, different results of data sources show differently (all bad types alike), and none shows as nothing |
| Multiplex.ResultsAreDocumented | plugins/multiplex/README.rst:70-86 | the table holds the string, false for nil, 64 for a plugin that has returned, 65 for a Lua error and 66 for a value of a bad type |
| Multiplex.CheckWspecs | plugins/multiplex/multiplex.c:83-106 | accepted are exactly 1 to 64 data sources with distinct names |
| Multiplex.MakeUpdates | plugins/multiplex/multiplex.c:316-345 | the table has an entry for every marked slot that is not in its initial state, under its name, and no others |
| Multiplex.ConsumerRound | plugins/multiplex/multiplex.c:402-405 | a round takes what was marked out of the queue, as it was there, into the table and the copies |
| Barlib.Bar.Redraw | barlibs/stdout/stdout.c:157-182 | a redraw shows the non-empty texts in order with a separator between each two, whichever way the barlib joins them, and for stdout and lemonbar a newline after them |
| Barlib.JoinFirst | barlibs/lemonbar/lemonbar.c:182-207 | joining with a "first" flag gives the texts that are not empty, in order, with the separator between each two |
| Barlib.JoinSize | barlibs/dwm/dwm.c:90-128 | so does joining by looking at the size so far |
| Joining.JoinedConcat | barlibs/stdout/stdout.c:163-174 | joining in two parts is joining each, with a separator between them exactly if both show something |
| Joining.JoinedIsInterspersed | barlibs/stdout/stdout.c:163-174 | what is joined is the texts that are not empty, with a separator between each two |
| Barlib.AppendItems | barlibs/stdout/stdout.c:202-227 | the text of an array's items, or failure exactly if one is neither string nor nil |
| Barlib.ItemsAreInterspersed | barlibs/stdout/stdout.c:202-227 | that text is the array's non-empty strings, cleaned and in order, with a separator between each two, except before the first one of which cleaning leaves something; so a string that is cleaned away later leaves two separators |
| Barlib.StringShown | barlibs/stdout/stdout.c:192-228 | a string shows as it is in dwm, without its newlines in stdout, with prefixes in its click tags in lemonbar, and is invalid for i3; an array of one string shows as that string |
| Barlib.DrawnAreLines | barlibs/stdout/stdout.c:157-182 | everything that stdout and lemonbar draw is one line, unless the separator or the text for errors has a newline |
| Barlib.Bar.Set | barlibs/stdout/stdout.c:184-245 | set() stores the new text and draws exactly if it differs; invalid data clears the buffer without drawing |
| Barlib.Bar.SetError | barlibs/stdout/stdout.c:247-255 | set_error() stores the error text and always draws |
| Barlib.Bar.Update | luastatus/luastatus.c:1029-1062 | set() and the set_error() that follows invalid data, together: either the texts and the picture are unchanged, or the new texts are drawn |
| Barlib.Session | barlibs/i3/i3.c:328-407 | over any number of calls, up to the first whose write fails, what is drawn is what the specification of skipping says |
| Barlib.SkippingIsUnseen | barlibs/i3/i3.c:157-183 | the trace without repetitions is that of a barlib which redraws on every call, and the last picture is that of all current texts |
| Barlib.SameFromTheStart | barlibs/lemonbar/lemonbar.c:209-283 | counted from a start at which nothing has been drawn, the traces are the same if and only if the first call does not give an empty text, or the text for errors is empty and the first call that does not give an empty text fails |
| Barlib.FirstDrawIsMissing | barlibs/stdout/stdout.c:184-245 | the traces do differ: for one widget of the stdout barlib that returns nil |
| Barlib.FirstPicture | barlibs/dwm/dwm.c:177-248 | the first picture drawn after all texts were empty is the empty one if and only if the text for errors is empty and the first call that does not give an empty text fails |
| Lemonbar.ReplaceAll | barlibs/lemonbar/markup_utils.c:29-45 | the span-copying loop (of escape(), and of barlibs/stdout/sanitize.c:30-41) replaces every occurrence and nothing else |
| Lemonbar.StrippedJoins | barlibs/stdout/sanitize.c:30-41 | stripping a text joins what is between its newlines and changes nothing else |
| Lemonbar.EscapedReadsBack | barlibs/lemonbar/markup_utils.c:29-45 | reading pairs of percent signs as one undoes escaping |
| Lemonbar.AppendSanitized | barlibs/lemonbar/markup_utils.c:52-101 | the span-copying loop gives the pieces of a scan byte by byte |
| Lemonbar.SanitizeEscaped | barlibs/lemonbar/markup_utils.c:29-101 | sanitizing escaped text only removes its newlines, for every text and widget |
| Lemonbar.SanitizedHasNoNewline | barlibs/lemonbar/markup_utils.c:52-101 | the output has no newline, whatever the input is |
| Lemonbar.OnlyPrefixesAreInserted | barlibs/lemonbar/markup_utils.c:52-101 | without the inserted prefixes the output is the input without its newlines |
| Lemonbar.TagGetsPrefix | barlibs/lemonbar/markup_utils.c:52-101 | a click tag that no newline interrupts gets the widget prefix right after its first colon, once |
| Lemonbar.PrefixedExactly | barlibs/lemonbar/markup_utils.c:52-101 | byte by byte: a colon gets the prefix if and only if a click tag begins before it, at a percent sign that is not the second one of a pair, with no colon or closing brace in between; newlines go away and all else is kept |
| Lemonbar.SanitizedExactly | barlibs/lemonbar/markup_utils.c:52-101 | so the sanitized text is given position by position |
| Lemonbar.ParseCommand | barlibs/lemonbar/markup_utils.c:103-118 | the code finds the underscore and parses what is before it |
| Lemonbar.CommandExactly | barlibs/lemonbar/markup_utils.c:103-118 | a line is command cmd of widget k if and only if it is a numeral for k up to INT_MAX, an underscore and cmd |
| Lemonbar.PrintedCommandParses | barlibs/lemonbar/markup_utils.c:52-118 | what a click on a prefixed tag prints comes back to the widget, for every index up to INT_MAX |
| UnixSock.LiveFds | plugins/unixsock/server.c:247-259 | dropping the dropped loses no descriptor that is open |
| UnixSock.BalancedDrop | plugins/unixsock/server.c:111-119 | a drop closes a descriptor that is open, and every accepted descriptor stays accounted for |
| UnixSock.ChunkingDoesNotMatter | plugins/unixsock/server.c:121-184 | however reads split a client's bytes, the line reported is what comes before the first newline of all that is received, and there is none without a newline |
| UnixSock.LineOfDescriptor | plugins/unixsock/unixsock.c:234-289 | over any rounds, with any other clients and wherever compaction moves it, what is reported for a client's descriptor is that line of all bytes received on it, once, or nothing |
| UnixSock.TurnsOfDescriptor | plugins/unixsock/unixsock.c:252-288 | a client's states over rounds are its turns, one for each read from its descriptor |
| UnixSock.Server.Poll | plugins/unixsock/server.c:81-104 | the server's own descriptor is polled exactly if the server is not full, and only then can it accept; client i is at position i + 1 |
| UnixSock.Server.FindNewline | plugins/unixsock/server.c:121-128 | looking at the last chunk only is looking at the whole buffer, as clients that are left have sent no newline |
| UnixSock.Server.ReadFromClient | plugins/unixsock/server.c:130-163 | without an event nothing happens; otherwise the buffer grows by what was read, and the code returned tells whether a full line is there or the client is gone |
| UnixSock.Server.GetFullLine | plugins/unixsock/server.c:165-184 | with a newline in the buffer its assertions hold, and it gives what is before the first one |
| UnixSock.Server.DropClient | plugins/unixsock/server.c:186-194 | the client's descriptor, which is open, is closed, and the client is marked as dropped |
| UnixSock.Server.AddClient | plugins/unixsock/server.c:196-227 | the new client is added last, within the maximum, and the poll array follows; requires that nobody is dropped, as update_pfds() asserts |
| UnixSock.Server.Compact | plugins/unixsock/server.c:247-259 | in place, the clients that are left move to the front in order, and the poll array follows |
| UnixSock.Server.TakeTurn | plugins/unixsock/unixsock.c:252-275 | a client is dropped after an error, the end of its input, or a full line, which is reported; its descriptor is closed exactly then |
| UnixSock.Server.ReadAll | plugins/unixsock/unixsock.c:252-275 | every client has its turn once; dropped ones keep their place until the compaction; descriptors are closed but none is forgotten |
| UnixSock.Server.Round | plugins/unixsock/unixsock.c:234-289 | a whole round keeps all invariants, accounts for every descriptor accepted or closed, and fails the assertion of update_pfds() exactly if it accepts a client after dropping one |
| UnixSock.Server.Serve | plugins/unixsock/unixsock.c:234-289 | the same over any number of rounds: what was accepted is what is open and what was closed, each once |
| UnixSock.AssertionCanFail | plugins/unixsock/unixsock.c:277-288 | a run that fails the assertion: a client connects, then disconnects in the round in which another one connects |
| UnixSock.AssertionFailsExactly | plugins/unixsock/unixsock.c:277-288 | a server can come to fail the assertion if and only if it is for more than one client |
| WideChar.LibWidth | libwidechar/libwidechar.c:69-87 | for every decoder the loop gives the sum of the widths modulo 2 to the 64, or fails exactly at a part that is invalid or not printable |
| WideChar.AcceptedConcat | libwidechar/libwidechar.c:69-87 | widths of strings that have one add up |
| WideChar.NoWidthExactly | libwidechar/libwidechar.c:69-87 | a string has no width if and only if something invalid or not printable comes after whole printable characters |
| WideChar.NarrowWidth | libwidechar/libwidechar.c:69-87 | if no character is wider than its bytes, the sum does not exceed the size of the string, so it does not wrap |
| WideChar.TruncateToWidth | libwidechar/libwidechar.c:89-119 | for every decoder the loop computes the truncation that the lemmas below are about if and only if its 64-bit sum does not wrap before it exceeds the maximum |
| WideChar.SeldomWraps | libwidechar/libwidechar.c:109-113 | it does not wrap if the maximum is at least INT_MAX below the largest there is, or no character is wider than its bytes |
| WideChar.TruncationCanWrap | libwidechar/libwidechar.c:109-113 | it does wrap for the largest maximum, characters of INT_MAX columns and a long enough string |
| WideChar.BoundaryWidth | libwidechar/libwidechar.c:54-67 | a prefix of whole printable characters decodes on its own as it does in the whole string |
| WideChar.TruncatedIsLongest | libwidechar/libwidechar.c:89-119 | the result is the longest prefix of whole characters that is no wider than the maximum, and the width reported is the width of that prefix |
| WideChar.TruncationFails | libwidechar/libwidechar.c:89-119 | truncation fails if and only if something invalid or not printable is met after text that is not too wide |
| WideChar.TruncateTwice | libwidechar/libwidechar.c:89-119 | truncating to a and then to b is truncating to the smaller of them |
| WideChar.MakeValidAndPrintable | libwidechar/libwidechar.c:121-152 | the span-copying loop replaces every character that is not printable, and every invalid byte; it terminates |
| WideChar.RepairedAt | libwidechar/libwidechar.c:121-152 | whole printable characters are kept, the invalid byte or whole unprintable character after them is replaced, and the rest is repaired by itself |
| WideChar.RepairedIsAccepted | libwidechar/libwidechar.c:121-152 | if the replacement has a width, so has the result |
| WideChar.AcceptedIsKept | libwidechar/libwidechar.c:121-152 | a string that has a width is not changed |
| WideChar.RepairTwice | libwidechar/libwidechar.c:121-152 | repairing is idempotent if the replacement has a width |
| StrSet.LessEqTotal | plugins/network-linux/strset_mergesort.c:60-66 | the order of strcmp() is total, and equality in it is equality |
| StrSet.MergeStable | plugins/network-linux/strset_mergesort.c:56-76 | merging keeps elements with equal texts in order, the left ones first |
| StrSet.MergeSortedIsSorted | plugins/network-linux/strset_mergesort.c:35-79 | merge sort gives a sorted sequence in which, for every text, the elements with it are the same ones in the same order: a stable permutation |
| StrSet.Copy | plugins/network-linux/strset_mergesort.c:28-33 | exactly the given range is copied |
| StrSet.MergeSort | plugins/network-linux/strset_mergesort.c:35-79 | the in-place sort with an auxiliary array is merge sort on its range, and touches nothing else |
| StrSet.SortHalves | plugins/network-linux/strset_mergesort.c:41-53 | the halves are copied to the auxiliary array and sorted there |
| StrSet.MergeBack | plugins/network-linux/strset_mergesort.c:55-76 | the three loops merge the halves of the auxiliary array into the range |
| StrSet.MergeHeads | plugins/network-linux/strset_mergesort.c:55-67 | while both halves have elements left, what is written and the merge of what is left is the merge of all |
| StrSet.BinSearch | plugins/network-linux/strset_binsearch.c:28-42 | on a sorted array it finds a text if and only if it is there |
| StrSet.Strset.Add | plugins/network-linux/strset.c:40-48 | the string is appended, also when the array has to grow |
| StrSet.Strset.Freeze | plugins/network-linux/strset.c:50-53 | the set is sorted in place |
| StrSet.Strset.Contains | plugins/network-linux/strset.c:55-60 | on a frozen set it is membership |
| StrSet.FreezingHolds | plugins/network-linux/strset.c:50-53 | freezing keeps the texts, and makes the set one that can be searched |
| StrSet.Plugin.Inject | plugins/network-linux/network.c:320-353 | only the first address of an interface counts; searches happen on a frozen set only |
| StrSet.Plugin.MakeCall | plugins/network-linux/network.c:294-366 | over any calls, refreshing or not, failing or not: the interfaces reported as wireless are those among the present ones which the last successful refresh found to be wireless, and the set is frozen between calls |
| Cvt.IntegersFit | plugins/dbus/cvt.c:102-111 | every integer's text fits the 32-byte buffer, and denotes it |
| Cvt.ElementAt | plugins/dbus/cvt.c:95-99 | the children of a container have the keys 1, 2, ..., without holes |
| Cvt.FoundInLua | plugins/dbus/cvt.c:77-189 | within the limit, along every path of positions, a Lua program finds booleans, doubles and strings as themselves, integers as texts that denote them, handles as functions of their types, containers as tables, whatever they are boxed in, and nil for what is not there |
| Cvt.PushSpecialObject | plugins/dbus/cvt.c:47-60 | a closure over the text, preceded by nil for errors, with at most two slots |
| Cvt.PushIterable | plugins/dbus/cvt.c:77-100 | one table with all the children, or one marker, within the budget |
| Cvt.PushGVariant | plugins/dbus/cvt.c:113-189 | for every value and limit r exactly one Lua value is pushed, within r / 2 + 2 slots |
| Cvt.CvtVariant | plugins/dbus/cvt.c:191-203 | of the 210 slots reserved it needs at most 102; without them it pushes the error object |
| Cvt.MarkedExactly | plugins/dbus/cvt.c:77-189 | the depth marker occurs in the result if and only if the height of the value, where containers count twice, exceeds the limit |
| Cvt.LimitOnlyCuts | plugins/dbus/cvt.c:77-189 | a larger limit gives the same value except in the place of depth markers, so values within the limit are converted completely |
| UrlCode.UrlencodeSize | plugins/web/mod_urlencode/urlencode.c:50-69 | despite wrap-around, the size of the encoding if that is below SIZE_MAX, and SIZE_MAX otherwise |
| UrlCode.Urlencode | plugins/web/mod_urlencode/urlencode.c:73-95 | the buffer of that size is filled exactly with the encoding |
| UrlCode.UrldecodeSize | plugins/web/mod_urlencode/urldecode.c:25-41 | the number of characters and escapes, also where escapes are malformed or cut short |
| UrlCode.Urldecode | plugins/web/mod_urlencode/urldecode.c:57-89 | the buffer of that size is never overrun, and holds the decoding exactly if there is one |
| UrlCode.LuaUrlencode | plugins/web/mod_urlencode/mod_urlencode.c:40-62 | size pass, allocation and encoding together |
| UrlCode.LuaUrldecode | plugins/web/mod_urlencode/mod_urlencode.c:64-85 | size pass, allocation and decoding together; nil exactly for malformed input |
| UrlCode.DecodeEncode | plugins/web/mod_urlencode/urlencode.c:73-95 | decoding undoes encoding, for every byte string and both notations |
| UrlCode.EncodedCharacters | plugins/web/mod_urlencode/urlencode.c:25-48 | an encoding has only unreserved characters, percent signs, and plus signs where asked for |
| UrlCode.MalformedExactly | plugins/web/mod_urlencode/urldecode.c:57-80 | decoding fails if and only if some percent sign, wherever it is, is not followed by two hexadecimal digits |
| UrlCode.CaseOfDigits | plugins/web/mod_urlencode/urldecode.c:43-55 | writing the digits of escapes in lower case does not change what is decoded |
| UrlCode.PlainIsKept | plugins/web/mod_urlencode/urldecode.c:57-80 | what has no percent and plus signs is decoded as itself |
| UrlCode.DecodedSize | plugins/web/mod_urlencode/urldecode.c:25-41 | a decoding has the size that the size pass gives, as the final assertion says |
| JsonEscape.EscapedStretch | plugins/web/mod_json/json_encode_str.c:37-45 | a stretch of plain bytes copied as one span and an escape are what escaping byte by byte gives |
| JsonEscape.JsonEncodeStr | plugins/web/mod_json/json_encode_str.c:27-48 | the segments handed out are, together, the bytes escaped one by one |
| JsonEscape.AppendJsonEscapedStr | barlibs/i3/escape_json_str.c:32-54 | the other escaper appends the same between quotes, on the growable buffer |
| JsonEscape.ReadEscaped | barlibs/i3/escape_json_str.c:32-54 | a reader of JSON strings gets the original bytes back, and stops at the closing quote, whatever follows |
| JsonEscape.EscapedIsClean | plugins/web/mod_json/json_encode_str.c:37-45 | no control character, quote or slash is left, and every backslash opens a four-digit escape |
| Xkb.CutsAreBalanced | plugins/xkb/wrongly.c:110-123 | the wrapping 64-bit count is zero exactly where parentheses balance, for any string that fits the memory |
| Xkb.SplitExactly | plugins/xkb/wrongly.c:107-130 | the groups are the one list of strings between the cuts, and joined with the separator they give the string back |
| Xkb.WronglyParseLayout | plugins/xkb/wrongly.c:107-130 | the loop appends exactly those groups, split at commas, to the packed array |
| Xkb.CheckBad | plugins/xkb/somehow.c:85-95 | a group is bad if and only if it is empty, or some comma-separated entry of a non-empty list matches it |
| Xkb.BadMatches | plugins/xkb/somehow.c:71-83 | an entry matches itself, alone or before a parenthesis or a colon |
| Xkb.SomehowParseSymbols | plugins/xkb/somehow.c:97-124 | the loop appends exactly the groups, split at plus signs, that are not bad |
| LsString.MulZu | libls/ls_alloc_utils.c:27-34 | the division test fails exactly if the product exceeds SIZE_MAX |
| LsString.FirstFit | libls/ls_alloc_utils.c:81-94 | doubling until there is room gives less than twice what is needed |
| LsString.X2 | libls/ls_alloc_utils.c:81-94 | growth panics exactly if the doubled capacity, in bytes, exceeds SIZE_MAX |
| LsString.LsString.EnsureAvail | libls/ls_string.h:58-63 | the capacity becomes the first doubling with room enough, or a panic exactly if that exceeds SIZE_MAX; the contents stay, and the capacity stays linear in what was asked for |
| LsString.LsString.Append | libls/ls_string.h:87-95 | the contents are followed by the new bytes |
| LsString.LsString.AppendChar | libls/ls_string.h:104-110 | the same for one byte |
| LsString.LsString.Assign | libls/ls_string.h:70-78 | the contents are the new bytes; the capacity only grows |
| LsString.LsString.Clear | libls/ls_freemem.h:30-40 | the string is empty, and at most 1024 bytes of capacity are kept |
| LsString.LsString.EqualTo | libls/ls_string.h:174-179 | equality of contents |
| LsString.Swap | libls/ls_string.h:186-190 | the two strings trade contents |
| LsString.UnpackedAt | libls/ls_strarr.h:84-96 | the i-th string runs from its offset to the next one, or to the end, within the buffer |
| LsString.StringArray.Append | libls/ls_strarr.h:61-70 | the array, as a sequence of strings, gets one more; it panics exactly where offsets or buffer cannot grow |
| LsString.StringArray.At | libls/ls_strarr.h:84-96 | the range given holds the i-th string |
| LsString.StringArray.Clear | libls/ls_strarr.h:98-104 | the array is empty, and capacity is cut back |

## Left out

- WideChar.TruncateToWidth: shift states of the encoding are not modelled, each character depends on its own bytes only (`WideChar.AsciiIsDecoder` gives a decoder that meets the assumptions).
- StrSet.Strset.Add: running out of address space or memory is not modelled here (`LsString` models the former).
- StrSet.Plugin.MakeCall: holds for calls in any order, so the loop of interact() that orders them is not modelled by itself.
- StrSet.Strset.Reset: keeps the allocation, where the source cuts large ones back (`LsString.LsString.Clear` models that).
- StrSet.Strset.Contains: requires a frozen set, which the source does not demand of callers but its only caller provides.
- I3Segments.ReadSegment: takes what printf() makes of a finite number as given, beginning with a digit or a minus sign and free of commas and braces; the order of a table's entries is input, as it is up to Lua.
- UnixSock.Server.Round: the error path that reconnects (plugins/unixsock/unixsock.c:291-295) and timeouts are not modelled.
- UnixSock.Server.SetNClients: the arrays are values of fields, so reallocation and its failure are not captured.
- I3Events.Context.Feed: tokens and strings are kept in sequences (`LsString.StringArray` models the packed array by itself); an integer is given as the number it is converted to, so rounding beyond 2^53 is not captured.
- JsonEscape.AppendJsonEscapedStr: nothing is said about the buffer after a panic, here and in `LsString` and `Xkb`.
- Xkb.CutsAreBalanced: for strings of at most SIZE_MAX bytes; the splits themselves use the wrapping count.
- ConqProtocol.Drains: says that draining is possible from every state; fairness of the scheduler is not modelled.
- CallProtocol.CanFinish: likewise says that all threads can finish, not that a scheduler makes them.
- LockOrder.ScriptsAreOrdered: what Lua code calls is any list of communicate(), call_event() and plugin functions that lock one mutex for a moment; waiting for anything but a mutex is not covered.
- The transitions of `CallProtocol` do not carry the data that Lua code computes; `Comm`, `Barlib` and `I3Events` treat what happens under each lock.
- Lua, yajl, GLib, libc and X11; dynamic loading, options, logging, process spawning, sockets and netlink.
- plugins/web/mod_json/json_decode.c, plugins/mpd, time utilities, scripts and fuzzers: little to prove beyond what single bodies say.
- Failure of malloc() itself; only sizes out of range are modelled, in `LsString`.
