# A verified model of the bee.fish store

This project models, in Dafny, the parts of bee.fish that keep its data: the bit trie in one
append-only file, the self-delimiting keys that address it, the cursor that walks it, the JSON layer on
top of it, the locks around it, the pipeline that stores and serves posted content, and the client's
Punycode codec and bit stream. `dafny verify dfyconfig.toml` checks everything.

## The system in short

A **key** is a word of bits whose running count (ones minus zeros) stays positive and first comes back to
zero at its last bit (`BitWords`). Numbers and strings are written as such keys by the power encoding
(`PowerEncoding`, on the server's `Stacks` and on the client's `ClientStream`; `ClientLanguage` says what the
client can read), so keys are prefix-free and the order of the bits is the order of the values.

The **trie** (`Trie`) lives in one file of bytes (`DatabaseBase`): branch records of four indexes, and data
records of a length and bytes, appended one after the other and linked by file offset. A `Path` (`Paths`) is
a cursor on a branch; it creates branches as it follows bits, sets and clears data, climbs back to the parent
of a key, and clears one key by cutting at its last bifurcation (`Clearing`). Below any branch the trie stands
for a finite map from rows of keys to data, and writing, reading and clearing do to that map what they should
(`KeyMaps`). `PathBase` walks the keys forwards and backwards with a stack of bits and nothing else;
`Scanning` and `Nesting` hold the reasoning, `Scans` the whole scans, `Iterables` the iterators and the tokens
they are resumed from.

The **JSON layer** takes the paths of the trie as finite maps: the property indexes of objects
(`PropertyIndexes`, `PropertyRuns`, `PropertyStore`) and whole runs over many objects (`PropertyHistories`), the
word index (`WordIndexes`), and the event handlers that overlay a document on a stored value (`JSONValues`,
`JSONPathParser`, `JSONOverlay`, `JSONLanding`, `JSONReading`, `JSONFeeding`). `StoredValues` joins the two: the
values of the property store stand for JSON values, and its operations are reading and writing those by path.

Around it: the per-index locks (`LockFile`) and the double-checked creation of branches (`BranchCreation`)
as interleaved atomic steps of any number of threads; Base64, paging, posting and serving (`Base64`,
`BinaryContent`); and Punycode (the modules from `Punycode` on), where encoder and decoder are
related through the list of insertions that both stand for.

`Arithmetic`, `ByteStrings` and `Sequences` hold what the modules share. Methods follow the source's loops and are proved
against specification functions; the lemmas say what the source promises of those functions.

## What the proofs found

- `previous` does not look at the running count after it has turned left (`PathBase.hpp:156-181`), so a key
  that ends at that very bit is skipped. One step, from one key or from several in a row, is exact if and only if
  the nearest key to the left does not end beside a right child (`PathBase.Previous`), so a reverse iterator made
  from a forward one that was resumed goes on right under the same condition
  (`Iterables.ReverseIterator.Increment`). The same holds for `goToMax`, which is always exact where
  all dead ends are the ends of keys (`PathBase.GoToMax`, `Clearing.TidyClosed`). A whole reverse scan is exact
  if and only if the trie has no fork at count one (`Scans.BackwardKeys`, `Scans.BackwardMissesPageZero`):
  numbers 0 and 1 together are such a fork.
- A token may run through a key into what is nested there. The scan it resumes first goes on among the nested
  keys and then rises to the keys above (`Scanning.NestedGoesOn`, `Scanning.NestedRises`), but as long as it is
  below a key the item it shows is that outer key, because items are read from the front of the bits
  (`Iterables.ItemOfFirst`).
- A stack read back from bytes equals the written one exactly when no padding was needed or the word is
  balanced (`Stacks.TokenRoundTrip`), so tokens of keys are safe and those of other words are not. The client's
  stream keeps the padding instead.
- Encoded content is served back exactly when it is empty or its content type has no comma; other content
  exactly when its first chunk does not look like a data header (`BinaryContent.PostThenServe`).
- Indexing an object by the number of a deleted position makes the child again but no property, and the store
  stays valid if and only if the position was not deleted (`PropertyStore.PropertyStore.Element`). From then on
  the iterator yields one name more there: the last one used, while the dictionary still has that entry, else
  the empty name, because clearing a name unlinks the branches that spell it (`PropertyStore.RevivedPosition`,
  `Clearing.ClearForgets`). Lookups and iterator then agree exactly when the object has a property of that name
  anyway.
- In a posted document the key `my` stands for the user's id, but the handler for the end of a member that is
  not a string goes to the key itself. One such member lands at the user's id and nowhere else exactly under the
  conditions of `JSONOverlay.MyKeySplits`, and a document whose objects have no key twice is overlaid with the
  user's id for the key if and only if every such member in it lands (`JSONLanding.LaidExactly`). Where each one
  is a string, any document is (`JSONOverlay.LaidIsOverlay`).
- Overwriting data in place does not check its size; the file stays well formed if and only if the new data
  touches no other record (`DatabaseBase.Database.SetData`). Paths only do it with data of the same size.
- Encoding what Punycode decoded gives the input back exactly when its digits are lower case and no two
  decoded code points are surrogates that join in the string (`PunycodeRoundTrip.Converse`). In its later
  passes the encoder adapts the bias with a stale count of code points; that never matters
  (`PunycodeEncoding.AdaptSteady`).
- A copied stack starts with count zero whatever the source's count was (`Stacks.Stack.Copy`); the iterators
  copy stacks only at keys, where the count is zero.

## Model

| member | source | states |
|---|---|---|
| BitWords.KeysPrefixFree | code/Database/PathBase.hpp:112-113 | no key is a proper prefix of another key, which is why a zero count ends a key |
| BitWords.KeysBeside | code/Database/PathBase.hpp:54-124 | two different keys part at some bit, so any two keys are ordered |
| PowerEncoding.Power | code/power-encoding/power-encoding-base.h:65-72 | the power is the exact logarithm rounded down: 2^p <= x < 2^(p+1) |
| PowerEncoding.Remainder | code/power-encoding/power-encoding-base.h:74-85 | value is the power of two plus the remainder |
| PowerEncoding.EncodedRoundTrip | code/power-encoding/power-encoding-base.h:23-63 | reading a written number gives the number and leaves whatever bits follow |
| PowerEncoding.NumberKeyRoundTrip | code/power-encoding/encoding.h:93-119 | the same for a number key |
| PowerEncoding.StringKeyRoundTrip | code/power-encoding/encoding.h:48-91 | the same for a string key, byte by byte |
| PowerEncoding.NumberKeyIsKey | client/power-encoding/power-encoding.js:114-129 | a number key counts above zero until its last bit and ends at zero |
| PowerEncoding.StringKeyIsKey | client/power-encoding/power-encoding.js:165-191 | the same for a string key |
| PowerEncoding.NumberKeyIs | client/power-encoding/power-encoding.js:15-73 | the bits of every number: one and zero for zero, and for 2^p + r two ones and then the bits of p and of r behind their leading ones |
| PowerEncoding.StringKeyIs | client/power-encoding/power-encoding.js:165-191 | the bits of every string: a one, the number keys of its bytes in order, and a zero |
| PowerEncoding.DecodedIs | code/power-encoding/power-encoding-base.h:44-63 | whatever closing words follow a one, they are read as 2 to the power of the first, plus the second |
| PowerEncoding.DecodedZero | code/power-encoding/power-encoding-base.h:44-63 | a zero bit is read as the number zero |
| PowerEncoding.NumberKeyOrder | client/power-encoding/power-encoding.js:15-73 | bit order of number keys is numeric order, in both directions |
| PowerEncoding.StringKeyOrder | client/power-encoding/power-encoding.js:165-191 | bit order of string keys is bytewise order with the shorter prefix first, in both directions |
| PowerEncoding.DecodedKeyAlone | code/power-encoding/encoding.h:106-119 | reading a number from any key takes exactly the key, whatever it was written as |
| PowerEncoding.DecodedStringAlone | code/power-encoding/encoding.h:67-91 | the same for reading a string |
| ClientStream.NumberRoundTrip | client/power-encoding/power-encoding.js:15-108 | the client reads back the number it wrote and leaves the bits behind it |
| ClientStream.StringRoundTrip | client/power-encoding/power-encoding.js:165-231 | the client reads back the bytes of a string it wrote |
| ClientStream.NumberAgrees | client/power-encoding/power-encoding.js:85-108 | whatever the client can read, the server reads as the same number with the same bits left |
| ClientLanguage.KeyIsRead | client/power-encoding/power-encoding.js:131-151 | the client reads a number from any key, the one the server reads, and leaves the bits behind the key |
| ClientLanguage.ReadIsKey | client/power-encoding/power-encoding.js:131-151 | and from nothing else: bits it reads a number from begin with a key |
| ClientLanguage.KeyIsReadAsString | client/power-encoding/power-encoding.js:193-231 | the same for a string |
| ClientLanguage.StringIsKey | client/power-encoding/power-encoding.js:193-231 | bits it reads a string from begin with a key |
| ClientStream.TextRoundTrip | client/stream/stream.js:73-117 | a string key written to text is read back whatever zeros pad the last character |
| ClientStream.Stream.constructor | client/stream/stream.js:3-20 | a new stream is empty |
| ClientStream.Stream.Copy | client/stream/stream.js:22-27 | a copy has the bits, and index and count zero |
| ClientStream.Stream.FromText | client/stream/stream.js:100-117 | the bits of every character, most significant first, filled up to eight but never cut to them |
| ClientStream.TextOfBytes | client/stream/stream.js:100-117 | a text of characters below 256 has the bits of its bytes, eight each |
| ClientStream.CharacterBitsAre | client/stream/stream.js:100-117 | the bits of a character of any code are those of its code, most significant first, as many as it needs and at least eight |
| ClientStream.Stream.ToText | client/stream/stream.js:73-98 | eight bits a character, the last one padded with zeros |
| ClientStream.Stream.Read | client/stream/stream.js:35-48 | the next bit; the index moves even past the end; the count goes up for a one, else down |
| ClientStream.Stream.Write | client/stream/stream.js:50-63 | bits are appended and the count changes by ones minus zeros |
| ClientStream.Stream.Encode | client/power-encoding/power-encoding.js:15-73 | appends the word of the number and lowers the count by one |
| ClientStream.Stream.Decode | client/power-encoding/power-encoding.js:85-108 | reads exactly the number the bits stand for, or fails when they run out |
| ClientStream.Stream.EncodeNumber | client/power-encoding/power-encoding.js:114-129 | appends a number key; the count comes back |
| ClientStream.Stream.DecodeNumber | client/power-encoding/power-encoding.js:131-151 | reads a number key; the final check of the count never fails on bits that decode |
| ClientStream.Stream.EncodeString | client/power-encoding/power-encoding.js:165-191 | appends a string key; the count comes back |
| ClientStream.Stream.DecodeString | client/power-encoding/power-encoding.js:193-231 | reads a string key, or fails where a check fails; the count comes back |
| Stacks.TallyIsLevel | code/power-encoding/power-encoding-base.h:113-132 | the clamped running count is the level of the word wherever the word never dips below zero |
| Stacks.TallyIsHighest | code/power-encoding/power-encoding-base.h:113-132 | for any word the clamped running count is the highest level of any of its endings, or that of the whole of it on top of the count before |
| Stacks.TallyOfKey | code/Miscellaneous/Stack.hpp:156-176 | a whole key brings the running count back, whether a bit is counted once or twice |
| Stacks.UnpackedPacked | code/Miscellaneous/Stack.hpp:55-154 | packing and unpacking gives the word followed by its zero padding |
| Stacks.UnpackedBitAt | code/Miscellaneous/Stack.hpp:55-154 | every bit read from bytes: eight a byte, its most significant bit first |
| Stacks.PackedBitAt | code/Miscellaneous/Stack.hpp:55-154 | every bit written to bytes: the same places, zeros behind the last, and as many bytes as are needed |
| Stacks.TokenRoundTrip | code/Miscellaneous/Stack.hpp:55-154 | for words that never dip below zero, reading back the bytes gives the word if and only if there was no padding or the word is balanced |
| Stacks.Kept | code/Miscellaneous/Stack.hpp:63-90 | the longest front of the bits that does not dip below zero |
| Stacks.Stack.constructor | code/Miscellaneous/Stack.hpp:36-39 | empty, at the beginning, count zero |
| Stacks.Stack.Copy | code/Miscellaneous/Stack.hpp:41-45 | the bits are copied, the count is not |
| Stacks.Stack.Assign | code/Miscellaneous/Stack.hpp:47-52 | the bits are taken over, the count stays |
| Stacks.Stack.FromData | code/Miscellaneous/Stack.hpp:55-94 | the bits of the bytes up to where the count would go below zero, with their count |
| Stacks.Stack.ToData | code/Miscellaneous/Stack.hpp:119-154 | eight bits a byte, the last one padded |
| Stacks.Stack.PushBack | code/Miscellaneous/Stack.hpp:247-261 | the bit is appended and counted, never below zero |
| Stacks.Stack.PopBack | code/Miscellaneous/Stack.hpp:264-275 | the last bit is dropped and its count undone |
| Stacks.Stack.Reset | code/Miscellaneous/Stack.hpp:189-193 | reading starts again with count zero |
| Stacks.Stack.Append | code/Miscellaneous/Stack.hpp:277-282 | bits are appended without counting |
| Stacks.Stack.WriteBit | code/Miscellaneous/Stack.hpp:156-162 | the bit is appended and counted twice |
| Stacks.Stack.ReadBit | code/Miscellaneous/Stack.hpp:164-187 | the next bit, zero past the end, counted once |
| Stacks.Stack.Write | code/power-encoding/power-encoding-base.h:23-42 | appends the word of a number |
| Stacks.Stack.WriteNumber | code/power-encoding/encoding.h:93-104 | appends a number key; the count comes back |
| Stacks.Stack.WriteString | code/power-encoding/encoding.h:48-65 | appends a string key; the count comes back |
| Stacks.Stack.Read | code/power-encoding/power-encoding-base.h:44-63 | reads the number the bits stand for and stops behind it; from a word that ends one below its beginning for the first time, it takes exactly that word and counts it |
| Stacks.Stack.ReadNumber | code/power-encoding/encoding.h:106-119 | reads back a written number key and leaves the rest; from any key it takes exactly that key, and the count comes back |
| Stacks.Stack.ReadCharacters | code/power-encoding/encoding.h:81-88 | reads number keys while there are ones, then the closing zero; from any rest of a string key it takes exactly that |
| Stacks.Stack.ReadString | code/power-encoding/encoding.h:67-91 | reads back a written string key and leaves the rest; from any key it takes exactly that key, and the count comes back |
| Trie.WalkParent | code/Database/Path.hpp:218-233 | the parent recorded in a branch is the branch one bit back on the walk |
| Trie.WalkInjective | code/Database/Path.hpp:160-216 | one branch is reached by one word only |
| Trie.WalkTrail | code/Database/PathBase.hpp:76-84 | a cursor that was walked somewhere can go back up by its stack of bits |
| Trie.WalkWithChild | code/Database/Path.hpp:160-216 | creating a child adds exactly the words that end with it and moves no other |
| Trie.BelowIsPrefix | code/Database/DatabaseBase.hpp:135-173 | the branches below a branch are those whose words continue its word |
| Trie.WalkPruned | code/Database/DatabaseBase.hpp:135-173 | after deleting a branch its word and all continuations are gone, and every other walk is as before |
| DatabaseBase.NumberRoundTrip | code/Database/DatabaseBase.hpp:117-133 | a number in range is read back from its bytes |
| DatabaseBase.BranchRoundTrip | code/Database/Branch.hpp:23-37 | the four indexes of a branch are read back from its record |
| DatabaseBase.BranchReadBack | code/Database/DatabaseBase.hpp:190-201 | in a well-formed file every branch of the tree is what its record says |
| DatabaseBase.BlobReadBack | code/Database/DatabaseBase.hpp:209-225 | in a well-formed file every data record holds its length and its bytes |
| DatabaseBase.BranchLayout | code/Database/Branch.hpp:23-37 | where every byte of a branch lies in the file: parent, left, right and data index, eight bytes each, least significant first |
| DatabaseBase.BlobLayout | code/Database/DatabaseBase.hpp:209-225 | where every byte of a data record lies: eight bytes of length, then the data |
| DatabaseBase.OverwriteBranch | code/Database/DatabaseBase.hpp:203-207 | overwriting a branch record leaves all other records and their extents as they were |
| DatabaseBase.OverwriteBlob | code/Database/DatabaseBase.hpp:243-253 | overwriting data leaves all other records as they were if and only if the new data touches none of them |
| DatabaseBase.AppendBranch | code/Database/DatabaseBase.hpp:101-115 | an appended branch overlaps nothing |
| DatabaseBase.AppendBlob | code/Database/DatabaseBase.hpp:117-133 | an appended data record overlaps nothing |
| DatabaseBase.BlobsNotAtZero | code/Database/DatabaseBase.hpp:63-133 | no data record is at offset zero, so a zero data index means none |
| DatabaseBase.Database.constructor | code/Database/DatabaseBase.hpp:63-87 | an empty file gets a root at offset zero; an existing well-formed file is taken as it is |
| DatabaseBase.Database.GetNextIndex | code/Database/DatabaseBase.hpp:101-115 | a new record at the end of the file that names its parent; nothing else changes |
| DatabaseBase.Database.Allocate | code/Database/DatabaseBase.hpp:117-133 | a new data record at the end of the file, never at zero; nothing else changes |
| DatabaseBase.Database.GetBranch | code/Database/DatabaseBase.hpp:190-201 | reads the branch of the tree from the bytes |
| DatabaseBase.Database.SetBranch | code/Database/DatabaseBase.hpp:203-207 | changes one branch of the tree; the file stays well formed |
| DatabaseBase.Database.GetData | code/Database/DatabaseBase.hpp:209-225 | reads the bytes of a data record; none for index zero |
| DatabaseBase.Database.HasData | code/Database/DatabaseBase.hpp:227-232 | a branch has data exactly when its data index is not zero |
| DatabaseBase.Database.SetData | code/Database/DatabaseBase.hpp:243-253 | writes the length and bytes in place, of any size; the file stays well formed if and only if they touch no other record, as bytes of the same size do |
| DatabaseBase.Database.DeleteData | code/Database/DatabaseBase.hpp:177-188 | the branch has no data; nothing else changes |
| DatabaseBase.Database.DeleteBranch | code/Database/DatabaseBase.hpp:135-173 | exactly the subtree is unlinked and emptied, parent links stay, and the file is still well formed |
| DatabaseBase.PrunedIsDetachedBared | code/Database/DatabaseBase.hpp:135-173 | detaching a branch and then deleting its children one by one is deleting the subtree |
| DatabaseBase.PrunedIs | code/Database/DatabaseBase.hpp:135-173 | deleting a branch empties it and all below it and changes nothing else but the one link to it |
| DatabaseBase.BaredIs | code/Database/DatabaseBase.hpp:135-173 | deleting the children of a branch empties all below it and changes no other branch |
| Paths.IndexedWalk | code/Database/Path.hpp:337-347 | indexing with a word creates exactly the missing words on the way and moves no other walk |
| Paths.IndexedData | code/Database/Path.hpp:337-347 | indexing leaves all data as it was and gives new branches none |
| Paths.Path.constructor | code/Database/Path.hpp:266-321 | a path at an index with count zero |
| Paths.Path.GoLeft | code/Database/Path.hpp:160-188 | moves left, creating the branch if needed; the count goes down but not below zero |
| Paths.Path.GoRight | code/Database/Path.hpp:190-216 | moves right, creating the branch if needed; the count goes up |
| Paths.Path.GoUp | code/Database/Path.hpp:218-233 | moves to the recorded parent and undoes the count by the parent's left link |
| Paths.Path.WriteBit | code/Database/Path.hpp:137-150 | follows one bit, counting it twice |
| Paths.Path.WriteKey | code/Database/Path.hpp:337-347 | follows a word to its branch and changes the tree exactly by the missing branches |
| Paths.Path.CanGoLeft | code/Database/Path.hpp:235-240 | there is a left child |
| Paths.Path.CanGoRight | code/Database/Path.hpp:242-248 | there is a right child |
| Paths.Path.IsDeadEnd | code/Database/Path.hpp:699-705 | there is no child |
| Paths.Path.Contains | code/Database/Path.hpp:806-869 | true exactly when the key leads to a branch; nothing is created |
| Paths.Path.GetData | code/Database/Path.hpp:423-443 | the data of the branch, empty when there is none |
| Paths.Path.SetData | code/Database/Path.hpp:521-554 | the branch has exactly the new bytes, empty data being data; every other branch keeps its links and data; the result says whether anything changed |
| Paths.Path.DeleteData | code/Database/Path.hpp:586-590 | the branch has no data |
| Paths.Path.Clear | code/Database/Path.hpp:592-612 | data and everything below are gone, nothing else |
| Paths.Path.LastBifurcation | code/Database/Path.hpp:628-653 | the last branch on the way to the key that has both children, and the bit taken there |
| Paths.Path.ClearKey | code/Database/Path.hpp:615-669 | cuts the tree at the last bifurcation before the key; without the key nothing happens |
| Paths.Path.Parent | code/Database/Path.hpp:286-321 | from the end of a key below a branch, gives back that branch and the key's bits, as long as the database root is not inside the key; from a branch its parent no longer links to, no bits |
| Paths.Path.ParentNumber | code/Database/Path.hpp:266-279 | undoes indexing by a number: the original index and the number |
| Paths.Path.ParentString | code/Database/Path.hpp:266-279 | undoes indexing by a string: the original index and the string; the empty string from a branch its parent no longer links to |
| Paths.RootAtBoundary | code/Database/Path.hpp:257-264 | a root at a key boundary is never inside a key, so the climb cannot stop early there |
| PathBase.Next | code/Database/PathBase.hpp:54-124 | moves to the nearest key after the current one, or says there is none and is back at the start; also from a detached cursor, and from the end of keys nested below each other |
| PathBase.GoToMin | code/Database/PathBase.hpp:204-232 | moves to the first key |
| PathBase.Previous | code/Database/PathBase.hpp:126-189 | from one key or several in a row, below which no key starts with a zero, moves to the nearest key before them if and only if that key does not end beside a right child; always keeps cursor and stack in agreement |
| PathBase.GoToMax | code/Database/PathBase.hpp:235-260 | moves to the last key if and only if that key does not end beside a right child; in a trie whose dead ends are all ends of keys it never does |
| PathBase.NoTightForkClear | code/Database/PathBase.hpp:156-181 | without a fork at count one no key ends beside a right child |
| Nesting.CandidatesApart | code/Database/PathBase.hpp:112-113 | of the keys a scan may come to next, from however deeply nested a key, none is a proper front of another |
| Scanning.NestedGoesOn | code/Database/PathBase.hpp:77-118 | from a key below other keys the scan goes on to the next key beside it there |
| Scanning.NestedRises | code/Database/PathBase.hpp:77-118 | where no key is left there, the scan goes on exactly as it would from the keys above |
| Scans.ForwardKeys | code/Database/PathBase.hpp:54-124 | scanning with next visits every key below the start exactly once in strictly increasing bit order, skips nested keys, and ends with the cursor at the start |
| Scans.ChildCount | code/Database/Path.hpp:673-681 | counts exactly the keys |
| Scans.BackwardKeys | code/Database/PathBase.hpp:126-189 | scanning with previous visits every key once in decreasing order if and only if the trie has no fork at count one |
| Scans.TightForkMissed | code/Database/PathBase.hpp:156-181 | with such a fork, no list of keys that previous can yield is complete |
| Scans.BackwardMissesPageZero | code/Database/PathBase.hpp:156-181 | the trie of the numbers zero and one has such a fork |
| Scans.EnumerationReversed | code/Database/PathBase.hpp:126-189 | the complete reverse list is the reverse of the complete forward list |
| Scans.EnumerationUnique | code/Database/PathBase.hpp:54-260 | there is only one complete list in each direction |
| Clearing.ClearedWalk | code/Database/Path.hpp:615-669 | after clearing a key exactly the words through the cut are gone |
| Clearing.CutIsPrivate | code/Database/Path.hpp:628-653 | the cut lies on the way to no other key |
| Clearing.ClearRemovesOneKey | code/Database/Path.hpp:615-669 | the key is gone; every other key keeps its membership, its subtree and its data |
| Clearing.TidyClosed | code/Database/Path.hpp:806-828 | a trie of nothing but whole keys has no dead end inside a key, and no key in it starts with a zero, neither at its start nor behind other keys |
| Clearing.ClearKeepsTidy | code/Database/Path.hpp:615-669 | after clearing, every dead end is still at a key boundary |
| Clearing.IndexKeepsTidy | code/Database/Path.hpp:337-347 | after indexing by a key at a boundary, every dead end is still at a key boundary |
| Clearing.EmptyIsTidy | code/Database/DatabaseBase.hpp:75-85 | the new database is such a trie |
| Clearing.DeadEndIffNoKeys | code/Database/JSONPath.hpp:1446-1450 | a branch is a dead end exactly when it has no keys, which is what dropping a name relies on |
| Clearing.ClearKeepsSuccessor | code/Database/JSONPath.hpp:1379-1406 | clearing the current key changes nothing about which key comes next |
| Clearing.NextAfterClear | code/Database/JSONPath.hpp:1379-1406 | after clearing the key just yielded, next from the detached cursor finds the key it would have found before |
| Clearing.ClearForgets | code/Database/Path.hpp:655-668 | the branch where the cleared key ended is no longer linked from its parent, so going back from it gives no key |
| Clearing.ClearKeys | code/Database/JSONPath.hpp:1379-1391 | the loop that clears each child and its key while it scans visits every key once in order, leaves none, and ends at a dead end |
| Clearing.ClearChild | code/Database/JSONPath.hpp:1386-1387 | clearing the path of a child empties it and changes no other key |
| KeyMaps.Put | code/Database/Path.hpp:521-554 | writing the data at a row of keys writes that entry of the map the trie stands for, and no other |
| KeyMaps.Get | code/Database/Path.hpp:423-443 | reading the data at a row of keys gives what the map has there, and going there changes no entry |
| KeyMaps.Remove | code/Database/Path.hpp:615-669 | clearing a key takes exactly the rows through that key out of the map |
| KeyMaps.EmptyRepresents | code/Database/DatabaseBase.hpp:75-85 | a new database stands for the empty map |
| Iterables.ItemOfNumber | code/Database/PathBase.hpp:42-52 | at a number's key an iterator over numbers shows the number |
| Iterables.ItemOfText | code/Database/PathBase.hpp:42-52 | at a string's key an iterator over strings shows the string |
| Iterables.ItemOfFirst | code/Database/PathBase.hpp:42-52 | at several keys in a row an iterator shows the first |
| Iterables.ReadItem | code/Database/PathBase.hpp:46-50 | reads the item from the front of the stack; the count is back at zero |
| Iterables.NextItem | code/Database/PathBase.hpp:42-52 | next with the item read off the stack |
| Iterables.KeyIterator.constructor | code/Database/Iterable.hpp:130-140 | stands at the first key, or at the end when there is none |
| Iterables.KeyIterator.After | code/Database/Iterable.hpp:142-172 | stands at the nearest key after the given stack, however many keys that runs through |
| Iterables.KeyIterator.Increment | code/Database/Iterable.hpp:231-239 | moves to the nearest key after the current one; from the end, to the first again |
| Iterables.KeyIterator.ToKey | code/Database/Iterable.hpp:209-217 | the Base64 text of the packed stack |
| Iterables.PreviousItem | code/Database/PathBase.hpp:191-201 | previous with the item read off the stack |
| Iterables.ReverseIterator.constructor | code/Database/Iterable.hpp:287-296 | where no key starts with a zero, stands at the last key if and only if that does not end beside a right child |
| Iterables.ReverseIterator.From | code/Database/Iterable.hpp:298-306 | stands where a forward iterator stands, at keys nested below each other after a resume |
| Iterables.ReverseIterator.Increment | code/Database/Iterable.hpp:343-350 | from one key or several in a row, below which no key starts with a zero, moves to the nearest key before them if and only if that does not end beside a right child |
| Iterables.NumbersInOrder | code/Database/Iterable.hpp:231-239 | from one number to the next the numbers increase |
| Iterables.TextsInOrder | code/Database/Iterable.hpp:231-239 | from one string to the next the strings increase bytewise |
| Iterables.Begin | code/Database/Iterable.hpp:385-395 | fails for text that is not Base64, for words that are not balanced and for words that lead nowhere; otherwise stands at the nearest key after the word, whether the word is one key or several |
| Iterables.TokenOfKey | code/Database/Iterable.hpp:209-217 | the word read from the token of keys in a row is those keys |
| Iterables.ResumeToken | code/Database/Iterable.hpp:385-395 | resuming from the token of any iterator stands at exactly the key after it |
| Iterables.ResumeWhereLeft | code/Database/Iterable.hpp:142-172 | resuming from a token and incrementing the iterator give the same key, item and end |
| LockFile.InitialInv | code/Database/LockFile.hpp:105-153 | the invariant holds before any step |
| LockFile.StepKeepsInv | code/Database/LockFile.hpp:105-153 | every atomic step of lock and unlock keeps the invariant |
| LockFile.RunKeepsInv | code/Database/LockFile.hpp:105-153 | so it holds in every state of every interleaving |
| LockFile.LockSafety | code/Database/LockFile.hpp:105-153 | at most one thread holds an index, the counter is its nested holds plus those waiting, and an entry exists exactly while someone holds it or waits |
| LockFile.NeverBlocksInside | code/Database/LockFile.hpp:120-136 | a thread holding the database mutex can always take its next step |
| LockFile.EraseOnlyUnused | code/Database/LockFile.hpp:148-151 | an entry is erased only with no holder and nobody waiting but the thread that unlocks |
| LockFile.WaitsForHolders | code/Database/LockFile.hpp:131-134 | a thread waiting for an index can go on if and only if no other thread holds it, whether it holds it itself or not |
| LockFile.WaitsForDatabase | code/Database/LockFile.hpp:105-145 | a thread outside can call lock if and only if no other thread is inside the database mutex, and unlock if it also holds the index |
| LockFile.CallDone | code/Database/LockFile.hpp:105-153 | in every interleaving a thread holds an index exactly once more after lock and once less after unlock, and all others as before |
| LockFile.UnusedAtOnce | code/Database/LockFile.hpp:110-122 | a lock of an index that nobody holds or waits for is taken without leaving the database mutex |
| BranchCreation.StepKeepsStoreInv | code/Database/Path.hpp:160-216 | every atomic step of goLeft, goRight and allocate keeps the invariant |
| BranchCreation.StoreRunInv | code/Database/DatabaseBase.hpp:101-133 | so it holds in every state of every interleaving |
| BranchCreation.LinksNeverChange | code/Database/Path.hpp:165-180 | parents, data and child links once set never change |
| BranchCreation.EveryBranchLinkedOnce | code/Database/Path.hpp:165-180 | no branch is the child of two slots, and outside the critical section every branch that was linked at the start or has been created since is linked from its recorded parent |
| BranchCreation.SameBitsSameBranch | code/Database/Path.hpp:160-216 | threads that have followed the same bits from the same start are at the same index |
| BranchCreation.RecordsNeverOverlap | code/Database/DatabaseBase.hpp:101-133 | records appended by different threads never overlap, they lie inside the file, and the one at offset zero is a branch |
| BranchCreation.FileIsRecords | code/Database/DatabaseBase.hpp:101-133 | outside the critical section every byte the file has grown by is of a record |
| BranchCreation.GoFollows | code/Database/Path.hpp:160-216 | in every interleaving a thread that was asked for a bit has followed exactly that bit when it rests again, whether it found the child, made it, or came second, and stands where its bits lead |
| BranchCreation.AllocateMakes | code/Database/DatabaseBase.hpp:117-133 | in every interleaving a thread that was asked for room has not moved when it rests again, and a record of that size has been made behind all that was there |
| BranchCreation.WaitsForLock | code/Database/Path.hpp:165-172 | a thread waits exactly while another one is inside the lock, and only where it goes for the lock |
| Base64.SymbolRoundTrip | code/Miscellaneous/Base64.hpp:101-109 | the decoder's character table inverts the encoder's |
| Base64.SymbolInAlphabet | code/Miscellaneous/Base64.hpp:18-18 | the character for six bits is the one at that place of the alphabet of section 4 of RFC 4648 |
| Base64.DecodedInAlphabet | code/Miscellaneous/Base64.hpp:101-109 | a character is decoded to its place in that alphabet, the padding to 64, and no other at all |
| Base64.TextPlaces | code/Miscellaneous/Base64.hpp:20-60 | in the text of any bytes, each block of four characters, by their places in the alphabet read in base 64, is three bytes read in base 256; padding stands exactly for missing bytes, and there are as many blocks as are needed |
| Base64.OctetsNumber | code/Miscellaneous/Base64.hpp:121-137 | four sextets read in base 64 are their bytes read in base 256, and padding drops the bits beyond the last whole byte |
| Base64.TextConcat | code/Miscellaneous/Base64.hpp:42-51 | text of whole three-byte blocks can be put together |
| Base64.ChunkRoundTrip | code/Miscellaneous/Base64.hpp:20-32 | the four characters of one to three bytes decode to those bytes, padding included |
| Base64.RoundTrip | code/Miscellaneous/Base64.hpp:111-139 | decoding the text of any bytes appends exactly those bytes |
| Base64.DecodedIsShorter | code/Miscellaneous/Base64.hpp:121-137 | four characters give at most three bytes |
| Base64.Base64Streambuf.Overflow | code/Miscellaneous/Base64.hpp:42-51 | emitted text and buffered bytes together stand for everything written |
| Base64.Base64Streambuf.Sync | code/Miscellaneous/Base64.hpp:53-60 | emits the padded rest |
| Base64.Base64Streambuf.Write | code/Miscellaneous/Base64.hpp:42-51 | any chunk: emitted text is that of whole blocks, the rest is buffered |
| Base64.ToBase64 | code/b-string/b-string-base.h:317-333 | the text of the whole string, which `Base64.TextPlaces` describes |
| Base64.Base64DecodeStream.DecodeBase64Stream | code/Miscellaneous/Base64.hpp:111-139 | one character: four sextets become up to three bytes, a bad character changes nothing |
| Base64.Base64DecodeStream.Write | code/Miscellaneous/Base64.hpp:87-97 | a string of characters, with the state carried over; fails at a bad character |
| Base64.FromBase64 | code/b-string/b-string-base.h:335-347 | decodes a whole text or fails |
| Base64.DecodesExactly | code/Miscellaneous/Base64.hpp:87-97 | a text decodes if and only if all its characters are of the alphabet, or padding |
| BinaryContent.PagedStreamBuffer.Xsputn | code/Miscellaneous/PagedStream.hpp:46-62 | pages emitted and bytes buffered together are all bytes written |
| BinaryContent.PagedStreamBuffer.Sync | code/Miscellaneous/PagedStream.hpp:64-71 | the rest becomes the last page |
| BinaryContent.StringContent.SetString | code/Database/JSONPath.hpp:504-575 | the page is stored, earlier pages stay, and later ones are dropped if and only if a page of an indexed string changes |
| BinaryContent.StringContent.EndString | code/Database/JSONPath.hpp:577-621 | pages past the count are gone and the index flag is stored |
| BinaryContent.PostEncoded | code/https/json-app.h:284-342 | for every chunking and page size, the pages are the Base64 text of all bytes with the header on the first page; all pages but the last are full, and the last is neither empty nor more than full |
| BinaryContent.Spelled | code/https/json-app.h:289-293 | the header is `data:`, the content type and `;base64,` |
| BinaryContent.EncodedTypes | code/https/json-app.h:280-282 | content is encoded if and only if its type begins with `image` or `audio` |
| BinaryContent.PostRaw | code/https/json-app.h:316-342 | other content is stored chunk by chunk |
| BinaryContent.Serve | code/https/response-stream.h:320-356 | serving page by page gives what decoding all pages behind the header gives, or the pages themselves |
| BinaryContent.EncodedServedExactly | code/https/response-stream.h:337-351 | encoded content is served back if and only if it is empty or its content type has no comma |
| BinaryContent.RawServedExactly | code/https/response-stream.h:337-351 | other content is served back if and only if its first chunk does not look like a data header |
| BinaryContent.CommaFails | code/https/response-stream.h:340-343 | a comma in the content type makes serving fail |
| BinaryContent.PostThenServe | code/https/json-app.h:276-342 | posting and serving gives the posted bytes exactly under those conditions, for every chunking and page size |
| PropertyIndexes.KeysUpToContains | code/Database/JSONPath.hpp:1186-1208 | a name is met while walking the positions exactly when the property index has it |
| PropertyIndexes.KeysUpToWithout | code/Database/JSONPath.hpp:1454-1455 | taking a property and its child away takes exactly its name out of the list |
| PropertyStore.LookupFindsKeys | code/Database/JSONPath.hpp:1186-1208 | dictionary and object index together find a name exactly when the iterator yields it |
| PropertyStore.DictionaryExact | code/Database/JSONPath.hpp:1446-1450 | a name is in the shared dictionary exactly when some object has it |
| PropertyRuns.LatestInsertionOrder | code/Database/JSONPath.hpp:1805-1820 | after any list of insertions and deletions the live names come in the order of their latest insertion |
| PropertyHistories.MakeAll | code/Database/JSONPath.hpp:1233-1457 | after any run of insertions and deletions on many objects, each object still there has the names its own changes make of those it had; lookups, iterators and dictionary agree; and a new property gets a position beyond all its object gave out before |
| PropertyHistories.Make | code/Database/JSONPath.hpp:1233-1457 | one change does to its object what it does to a list of names, and nothing to the names of others |
| PropertyHistories.RunInOrder | code/Database/JSONPath.hpp:1805-1820 | so each object yields the names still inserted in the order of their latest insertion among its own changes |
| PropertyHistories.ConsistentAgree | code/Database/JSONPath.hpp:1186-1208 | in every state the store reaches, lookups find exactly what iterators yield, and the dictionary has exactly the names some iterator yields |
| PropertyStore.RevivedPosition | code/Database/JSONPath.hpp:1278-1293 | after going to a deleted position by number the iterator yields exactly one name more, at that position: the last one used there while the dictionary has its entry, else the empty one; lookups find what they found before, and agree with the iterator if and only if they know that name anyway |
| PropertyStore.PropertyStore.constructor | code/Database/JSONDatabase.hpp:36-63 | no names and one value without a type |
| PropertyStore.PropertyStore.Contains | code/Database/JSONPath.hpp:1186-1208 | true exactly for the names the iterator yields |
| PropertyStore.PropertyStore.Enumerate | code/Database/JSONPath.hpp:1784-1820 | the names at the live positions in increasing order of position |
| PropertyStore.PropertyStore.GetObjectPropertyPosition | code/Database/JSONPath.hpp:1233-1275 | a new name goes to the end at the position after the last one ever used, a known one changes nothing; other objects and all agreement between the indexes are kept |
| PropertyStore.PropertyStore.Property | code/Database/JSONPath.hpp:218-233 | makes the value an object, and goes to the property, a new one coming last |
| PropertyStore.PropertyStore.DeleteProperty | code/Database/JSONPath.hpp:1418-1457 | takes exactly the name out and removes exactly the values below it; the names of other objects stay, and the dictionary only loses names |
| PropertyStore.PropertyStore.Clear | code/Database/JSONPath.hpp:1362-1413 | removes exactly the values below and blanks the value; all indexes still agree |
| PropertyStore.PropertyStore.SetType | code/Database/JSONPath.hpp:366-394 | a value of another type is cleared first; the same type changes nothing |
| PropertyStore.PropertyStore.Element | code/Database/JSONPath.hpp:235-286 | an index below one, or past the count of an object or a plain value, is an error; elements of an array are created with all those missing between its end and the index and no others, and a value without a type becomes an array; in an object the child at the position, made again where it was deleted, and the store stays valid if and only if it was not |
| WordIndexes.ChainIsAncestors | code/Database/JSONPath.hpp:1481-1496 | the loop visits, once, exactly the values at or above the given one that differ from their parent and grandparent, which differ too |
| WordIndexes.WeightBelow | code/Database/JSONPath.hpp:1481-1496 | so a registration counts its words once for each such value |
| WordIndexes.AddedAlongStored | code/Database/JSONPath.hpp:1468-1501 | adding raises each count by words times ancestors and leaves no zero entry |
| WordIndexes.DroppedTokensStored | code/Database/JSONPath.hpp:1538-1586 | removing lowers each count by as much but not below zero, and leaves no zero entry and no empty word |
| WordIndexes.WordIndex.AddWords | code/Database/JSONPath.hpp:1468-1501 | every count of a word and such a value is raised by how often the word occurs, and no other; at a root and directly below one nothing changes; every count is the number of live registrations, the new one included |
| WordIndexes.WordIndex.RemoveWords | code/Database/JSONPath.hpp:1538-1586 | for a live registration the same counts are lowered by as much, and no other; at a root and directly below one nothing changes; every count is the number of those left |
| WordIndexes.RemoveUndoesAdd | code/Database/JSONPath.hpp:1468-1586 | removing what was just added gives the same index entry by entry |
| JSONValues.GetPut | code/Database/JSONPath.hpp:218-286 | what was written at a path is read there |
| JSONValues.PutStep | code/Database/JSONPath.hpp:218-286 | writing below a value writes the value with that child |
| StoredValues.WholeValue | code/Database/JSONPath.hpp:218-286 | a change at or below a stored value is a write at that value's path in the JSON value of the whole document, and what is read there is the value |
| StoredValues.GoToProperty | code/Database/JSONPath.hpp:218-233 | going to a property writes the child there, or one without a type, at its key, in the JSON value of the whole document, and gives the child of that name |
| StoredValues.GoToElement | code/Database/JSONPath.hpp:235-286 | for any kind of value: in an array, or a value without a type, the same for an element; an error and a position of an object that is in use change nothing; the indexes agree afterwards if and only if the position was not a deleted one |
| StoredValues.MakeContainer | code/Database/JSONPath.hpp:366-394 | making a value an object or an array keeps one that is there and empties any other |
| StoredValues.DropProperty | code/Database/JSONPath.hpp:1418-1457 | deleting a property takes its name and its value out of the object |
| JSONPathParser.Parser.constructor | code/Database/JSONPathParser.hpp:49-55 | empty stacks at the start value |
| JSONPathParser.Parser.NextPath | code/Database/JSONPathParser.hpp:150-162 | the property of the last key or the element after the last index |
| JSONPathParser.Parser.OnBeginObject | code/Database/JSONPathParser.hpp:205-211 | makes the target an object, keeping one that is there, and enters it |
| JSONPathParser.Parser.OnBeginArray | code/Database/JSONPathParser.hpp:255-261 | makes the target an array, keeping one that is there, and enters it at index zero |
| JSONPathParser.Parser.PopPath | code/Database/JSONPathParser.hpp:178-184 | leaves a container, and its index when it is an array |
| JSONPathParser.Parser.OnEndObject | code/Database/JSONPathParser.hpp:247-253 | leaves the object |
| JSONPathParser.Parser.OnEndArray | code/Database/JSONPathParser.hpp:278-287 | cuts the array to the elements met and leaves it |
| JSONPathParser.Parser.OnObjectKey | code/Database/JSONPathParser.hpp:186-192 | pushes the key, the user's id for `my` |
| JSONPathParser.Parser.OnObjectValue | code/Database/JSONPathParser.hpp:223-244 | sets a value that is not a string at the key itself and uses the key up |
| JSONPathParser.Parser.OnArrayValue | code/Database/JSONPathParser.hpp:263-276 | sets a value that is not a string at the next element |
| JSONPathParser.Parser.OnBeginString | code/Database/JSONPathParser.hpp:289-309 | finds the place of the string and uses up its key or index |
| JSONPathParser.Parser.OnPartString | code/Database/JSONPathParser.hpp:311-324 | stores the next page |
| JSONPathParser.Parser.OnEndString | code/Database/JSONPathParser.hpp:326-343 | drops the pages past the last one |
| JSONPathParser.Parser.OnValue | code/Database/JSONPathParser.hpp:345-360 | sets a value that is the whole document |
| JSONOverlay.StringStored | code/Database/JSONPathParser.hpp:289-343 | the events of a string store exactly its parts as pages, whatever was there |
| JSONOverlay.ValueStored | code/Database/JSONPathParser.hpp:205-287 | the events of any object or array, wherever it is nested, lay it over what is at its place and leave all four stacks as they were |
| JSONOverlay.Feeding | code/Database/JSONPathParser.hpp:144-343 | the events of any document leave all four stacks as they were and lay the document over the start value |
| JSONFeeding.InnerHandled | code/Database/JSONPathParser.hpp:205-343 | no event of a document finds an empty stack, wherever the value is nested |
| JSONFeeding.Handle | code/Database/JSONPathParser.hpp:205-360 | the handlers do what the specification of each event says |
| JSONFeeding.Store | code/Database/JSONPathParser.hpp:144-343 | storing any document through the handlers leaves the stacks as they were, and, where no object has a key twice, overlays the document, with the user's id for `my`, on the old value if and only if each `my` member lands; in any document where each `my` member is a string it does |
| JSONOverlay.ObjectsMerge | code/Database/JSONPath.hpp:218-233 | in an overlaid object each key of the document is laid over its old value in document order, and other keys stay as they were |
| JSONOverlay.ArraysOverlay | code/Database/JSONPath.hpp:656-673 | an overlaid array has the length of the new one and each element laid over the old element |
| JSONReading.PartOverlaid | code/Database/JSONPathParser.hpp:144-343 | at the path of each part of a stored document there is that part, laid over something |
| JSONReading.ReadBack | code/Database/JSONPathParser.hpp:144-343 | so each plain value and each string is read back at its path whatever was stored before, arrays have their lengths and objects all their keys |
| JSONOverlay.MyKeySplits | code/Database/JSONPathParser.hpp:156-244 | a `my` member is stored as the overlay at the user's id if and only if it is a string, or the user's id is `my`, or it is a plain value already at both keys, or an object or array with one of its kind already at `my`; and what is stored otherwise |
| JSONOverlay.LaidIsOverlay | code/Database/JSONPathParser.hpp:134-192 | where each `my` member is a string, what the handlers lay over the old value is the overlay of the document with the user's id for `my` |
| JSONLanding.LaidExactly | code/Database/JSONPathParser.hpp:134-244 | a whole document whose objects have no key twice is laid over the old value as the overlay with the user's id for `my` if and only if each of its `my` members, wherever it is nested, lands |
| Punycode.Ucs2Decode | client/punycode.js:101-123 | the code points of a string, an unmatched surrogate standing for itself |
| Punycode.Adapt | client/punycode.js:179-187 | the bias adaptation of section 3.4 of RFC 3492 as `PunycodeStandard.AdaptedIs` gives it, and it terminates |
| Punycode.EmitDelta | client/punycode.js:348-364 | the digits of a delta under the thresholds of the bias, and it terminates |
| Punycode.FindSmallest | client/punycode.js:325-330 | the smallest code point that is at least n |
| Punycode.RunPass | client/punycode.js:342-369 | one pass with its overflow guard |
| Punycode.Encode | client/punycode.js:290-376 | the whole encoder computes the specification's result or overflow |
| Punycode.FindLastDelimiter | client/punycode.js:208-211 | the last delimiter, or zero |
| Punycode.ReadOne | client/punycode.js:231-257 | one generalized variable-length integer with its two overflow guards |
| Punycode.Decode | client/punycode.js:196-281 | the whole decoder computes the specification's result or the first error |
| PunycodeDeltas.ReadDigits | client/punycode.js:231-257 | reading the digits of a number adds the number, and overflows if and only if the sum or the weight of the last digit is out of range |
| PunycodeDeltas.ReadIsDigits | client/punycode.js:231-257 | lower-case digits that were read as a number are the digits of that number |
| PunycodeInsertions.DecodeText | client/punycode.js:224-279 | decoding the text of a list of insertions makes those insertions, and overflows if and only if one of them cannot be made within range |
| PunycodeInsertions.DecodedIsText | client/punycode.js:224-279 | every lower-case text that decodes is the text of an ordered list of insertions |
| PunycodeInsertions.InsertionsUnique | client/punycode.js:264-277 | only one ordered list of insertions builds a given sequence |
| PunycodeEncoding.RoundBuilds | client/punycode.js:319-374 | the encoder's insertions build its input from the basic code points, in decoder order |
| PunycodeEncoding.AdaptSteady | client/punycode.js:366-366 | after the first insertion of a pass the count given to the adaptation does not matter |
| PunycodeEncoding.StepEmit | client/punycode.js:347-369 | where the encoder emits, its delta and bias are those the decoder's state calls for, and the first-time test agrees |
| PunycodeEncoding.RoundText | client/punycode.js:319-374 | the encoder's main loop emits exactly the text of its insertions, or overflows |
| PunycodeRoundTrip.PointsRoundTrip | client/punycode.js:196-376 | decoding encoded code points gives them back or overflows |
| PunycodeRoundTrip.PointsConverse | client/punycode.js:344-376 | encoding decoded code points gives the input back if and only if its digits are lower case, unless the encoder overflows |
| PunycodeRoundTrip.DecodingInjective | client/punycode.js:196-281 | no two inputs with lower-case digits decode to the same code points |
| PunycodeRoundTrip.StringOfCodePoints | client/punycode.js:101-133 | every string is the string of its code points |
| PunycodeRoundTrip.CodePointsOfString | client/punycode.js:101-133 | code points come back from their string if and only if no two neighbours are surrogates that join |
| PunycodeRoundTrip.RoundTrip | client/punycode.js:196-376 | decoding an encoded string gives the string back or overflows |
| PunycodeRoundTrip.Converse | client/punycode.js:196-376 | encoding a decoded string gives the input back if and only if its digits are lower case and no decoded neighbours join, unless the encoder overflows |
| PunycodeBounds.EncodeInBounds | client/punycode.js:332-346 | no guard of the encoder fires for up to 1926 code points |
| PunycodeBounds.ShortPoints | client/punycode.js:231-272 | up to 55 code points are encoded and decoded back without any overflow (section 6.4 of RFC 3492) |
| PunycodeBounds.ShortRoundTrip | client/punycode.js:196-376 | the same for strings |
| PunycodeBounds.ShortConverse | client/punycode.js:196-376 | for inputs that decode to a short string the converse holds exactly, without the case of overflow |
| PunycodeOverflow.EncodeOverflowsExactly | client/punycode.js:325-346 | the encoder raises no overflow if and only if every delta is within range; a list longer than the largest integer could raise one besides |
| PunycodeOverflow.DecodeOverflowsExactly | client/punycode.js:231-272 | what was encoded is decoded to the same code points if the decoder can make every insertion within range, and raises overflow if not |
| PunycodeStandard.DigitCharacter | client/punycode.js:168-172 | digits are written as small letters and then figures |
| PunycodeStandard.CharacterDigit | client/punycode.js:144-155 | letters of both cases and figures are read as those digits, and nothing else is a digit |
| PunycodeStandard.ThresholdIs | client/punycode.js:248-248 | the threshold is the position less the bias, within 1 and 26 |
| PunycodeStandard.DigitsAreTheNumber | client/punycode.js:348-364 | digits are those of a number if and only if only the last is below its threshold and they stand for it with the weights of section 3.3 of RFC 3492 |
| PunycodeStandard.AdaptedIs | client/punycode.js:179-187 | the bias in the numbers of section 3.4 of RFC 3492: division by 700 the first time and by 2 later, the share of the points, and divisions by 35 until at most 455 |
| PunycodeStandard.EncodedIs | client/punycode.js:290-376 | the encoder's whole output: the basic code points, a delimiter when there are any, and the deltas of the insertions that make the input, from 128 and bias 72 on, the first of them adapting as the first |
| PunycodeStandard.BasicsAre | client/punycode.js:304-309 | the basic code points are those below 128, in their order |
| PunycodeStandard.FirstCodePoint | client/punycode.js:296-308 | a single code point that is not basic is written as its distance from 128 in digits under bias 72, and read back |
| PunycodeStandard.PairsInOrder | client/punycode.js:101-133 | code points from 0x10000 on are the surrogate pairs in their order, from D800 DC00 to DBFF DFFF |
| PunycodeStandard.PairIs | client/punycode.js:107-111 | a pair stands for 0x10000, plus 0x400 for each step of the high surrogate, plus one for each of the low one |
| PunycodeStandard.Refused | client/punycode.js:213-219 | decoding refuses as not basic exactly the inputs with a unit from 0x80 on before the last delimiter |
| PunycodeStandard.Accepted | client/punycode.js:239-246 | what decoding accepts has only letters and figures behind the last delimiter |
| PunycodeStandard.CaseDoesNotMatter | client/punycode.js:144-155 | the case of the digits does not matter to decoding |

## Left out

- Paths.Path.SetData: needs room for the new record (`Room`), because a file that can no longer be addressed is a write error, and write errors are not modelled; the same for every method that appends.
- Paths.Path.Parent: the climb is stated for paths that end a key below some branch; what it does from other branches is only that it ends in the tree.
- DatabaseBase.Database.constructor: an existing file is taken to be well formed; a damaged file is not modelled.
- PowerEncoding.Power: the exact integer logarithm; `log2`, `exp2` and `Math.log` in floating point are not modelled.
- PathBase.Previous: from bits that are not whole keys, or where a key starts with a zero, which no written key does, only that cursor and stack stay in agreement.
- JSONLanding.LaidExactly: documents with an object that has a key twice, or both `my` and the user's id; for them only one direction is stated (`JSONOverlay.LaidIsOverlay`).
- Stacks.Stack.ReadString: characters are numbers of any size; narrowing them to a byte, which only words that were not written as strings would need, is not modelled.
- Stacks.Stack.Read: the reading position is an index; that appending to a vector invalidates its iterator is not modelled.
- BranchCreation.LinksNeverChange: `setData` and the deletions are not among the steps, because they write branches under a different lock.
- WordIndexes.WordIndex.RemoveWords: the separate total that is counted on the word itself is not modelled; it is never lowered.
- WordIndexes.ChainIsAncestors: an id is taken to be the index of its path, which every id ends with.
- PropertyHistories.MakeAll: a change through the path of a value that is gone is passed over, because such a path is no longer part of the tree.
- StoredValues.GoToElement: what stored plain values hold is what they are given; setting them is not modelled here.
- JSONOverlay.Feeding: documents without `undefined`; and the flag saying whether a string's words are indexed is not part of the stored value (for a string without parts it is left over from the string before).
- ClientStream.Stream.Decode: running out of bits, which makes the client recurse until its stack is exhausted, is a failure result.
- The traits `PathBase` and `Iterable` are merged into the one class `Path` they are used with.
- Path keys are any key words; the templates over key types are not.
- The objects index, ids, words of property names, logging and the locks taken by the JSON layer.
- `setUndefined`, `getString`, `toString`, `toKey` of JSON paths and writing JSON out.
- Splitting text into words, case folding, escaping and UTF-8.
- The parser combinators: documents come as the events of a JSON value.
- `toUnicode`, `toASCII` and the splitting of domain names around the Punycode codec.
- File descriptors, shared memory set-up, process crashes and space reclamation, which the source leaves as a comment.
- HTTPS sessions, authentication, user interface, queries and URL parsing.
