# Wikidetox conversation reconstruction and visualisation: a Dafny model

This project models the sequential logic of the Wikidetox pipeline and its visualisation.
It has five parts.

- **Talk-page conversation reconstruction.**
  - `insert` compares one revision's token diff with the page state. The page state maps each token offset to the `(action id, indentation)` of the action starting there; `(-1, -1)` marks the end of the page.
  - It classifies the edits as comment additions, modifications, removals, rearrangements and restorations. It returns those actions and the new page state.
  - The conversation constructor runs `insert` on each revision. It then threads conversation ids and authorship through the actions, records long removals as deleted comments that may be restored later, and prunes its dictionaries to the live actions.
  - Both versions are modelled: the current single-page constructor (modules `ConversationInsert`, `ConversationConstructor`) and the older per-page constructor (`LegacyInsert`, `LegacyConstructor`).
  - The steps both versions share are in `Deletion`, `InsertPhases`, `PostProcessing` and `PageState`.
- **The sharded writer** (`ShardWriter`). It groups output records by month and year, projects them onto the output schema, and rotates files on a size threshold or a change of month. It picks the first free file index.
- **The PII and toxicity checks** (`Perspective`) of the antidox tool.
- **The category enrichment of talk pages** (`WikiCategories`, `NaturalLanguage`, `Batching`):
  - the Wikipedia category filter and archive-title truncation;
  - the cleaning of the cloud classifier's taxonomy paths;
  - the chunked processing of the table rows.
- **The particle system of the visualisation** (`ParticleSystem`):
  - radius and size weights;
  - the buffers filled for each comment;
  - the entry and exit frame loops, which move each particle's scale towards its target or towards zero without overshooting.

Code that changes state step by step is modelled as classes and methods: the two constructors, the writer, the particle system, the in-place category clean-up. Each such method is proved against specification functions. Pure code is modelled as functions and lemmas.

Routines whose code is not part of this model are parameters. These are:

- the tokenizer, the markup cleaner, the token diff and the deleted-comment trie;
- the section divider, action location and the action constructors;
- the sphere placement of the particles;
- HTTP fetches, the classifier, the JSON serialiser and the file system.

`Wrappers` (Option and Result) and `Text` (substring search, `split`/`join`, decimal numerals, Python slicing and negative indexing) model the built-ins the code relies on. `Sorting` is the stable sort by key used for ordering.

Python exceptions are modelled as `Err` values. These include a KeyError, an IndexError, a failed `assert`, and `int()` of something that is not a number.

## Model

Paths are relative to the repository root.

| member | source | states |
|---|---|---|
| PageState.NewPage | conversation_reconstruction_dataflow/conversation_reconstruction/construct_utils/conversation_constructor.py:308-315 | A created page has exactly one offset, 0, holding the boundary `(-1, -1)`, and carries the revision's page id and title. |
| PageState.NewPageWellFormed | conversation_reconstruction_dataflow/conversation_reconstruction/construct_utils/conversation_constructor.py:281-288 | A created page passes the end-of-`insert` assertions. |
| PageState.SortedSet | conversation_reconstruction_dataflow/conversation_reconstruction/construct_utils/conversation_constructor.py:57 | The sorted offsets are strictly ascending and are exactly the page-state offsets, each once. |
| PageState.MaxOf | conversation_reconstruction_dataflow/conversation_reconstruction/construct_utils/conversation_constructor.py:282 | `eof` is an offset of the page state and no offset exceeds it. |
| PageState.FindPosLast | conversation_reconstruction_dataflow/conversation_reconstruction/construct_utils/conversation_constructor.py:91-92 | Every offset after the one `find_pos` picks is past the position. The picked one is at or before the position whenever any offset is. |
| PageState.FindPosMonotone | conversation_reconstruction_dataflow/conversation_reconstruction/construct_utils/conversation_constructor.py:91-93 | On strictly sorted offsets whose first is at or before `p`, `find_pos` is monotone: `p <= q` gives `find_pos(p) <= find_pos(q)`. So a deletion's window never starts after it ends. |
| Text.PyIndex | conversation_reconstruction_dataflow/construct_utils/conversation_constructor.py:48 | A Python list index succeeds exactly within `[-len, len)`; a negative index counts from the end. |
| Text.PySlice | conversation_reconstruction_dataflow/conversation_reconstruction/construct_utils/conversation_constructor.py:104 | A Python slice within bounds is the plain subsequence; one running past the end stops at the end. |
| Text.SplitJoin | viz_v2/wiki_categorize/src/naturalLanguage.ts:26 | Splitting parts joined by a one-character separator that none of them holds gives the parts back. |
| Text.ParseIntPadded | conversation_reconstruction_dataflow/conversation_reconstruction/shard_result.py:90 | Python's `int()` reads a formatted number back even with blanks (the characters `str.isspace` accepts) before and after it. |
| Text.ParseIntUnderscore | conversation_reconstruction_dataflow/conversation_reconstruction/construct_utils/conversation_constructor.py:290 | Python 2's `int()` refuses two runs of digits joined by an underscore: the result is the ValueError. |
| Deletion.WindowOf | conversation_reconstruction_dataflow/conversation_reconstruction/construct_utils/conversation_constructor.py:91-93 | The window `old_actions[find_pos(start) : find_pos(end) + 1]` starts at the action holding the deletion's start. It ends with the last action starting at or before the deletion's end. |
| Deletion.SplitDeletion | conversation_reconstruction_dataflow/conversation_reconstruction/construct_utils/conversation_constructor.py:89-105 | The splitting loop yields `Split`, the loop written as a recursive function. For a non-empty deletion inside a sorted page it also states what `SplitSound` proves of `Split`. |
| Deletion.SplitSound | conversation_reconstruction_dataflow/conversation_reconstruction/construct_utils/conversation_constructor.py:89-105 | For a non-empty deletion inside a sorted page, the split succeeds exactly when the deletion ends at or before the last offset; otherwise it is an IndexError. The pieces tile `[a1, a2)` in order, without gap or overlap. Piece k lies in the k-th action of the window, starts at `max(start, action)` and carries the matching consecutive slice of the deleted tokens. |
| ConversationInsert.IsCommentAddition | conversation_reconstruction_dataflow/conversation_reconstruction/construct_utils/conversation_constructor.py:68-71 | An insertion is a comment addition exactly when three things hold: it starts at an old action offset; it opens a line (it starts with a break, starts the new text, or follows a break); and it closes one (it ends the text, or ends with a break). At an action offset, an empty insertion is an IndexError. So is one that does not start with a break and whose preceding token lies past the end of the new text. An insertion elsewhere is never an addition. |
| ConversationInsert.Mark | conversation_reconstruction_dataflow/conversation_reconstruction/construct_utils/conversation_constructor.py:83 | Marking an action modified adds it once, after the earlier marks, which keep their order. |
| ConversationInsert.ClassifyPieces | conversation_reconstruction_dataflow/conversation_reconstruction/construct_utils/conversation_constructor.py:106-110 | The classification loop yields `ClassifyFrom`, its recursive definition. Every removal candidate starts at or after the deletion's start and is not the last action the deletion touches. It holds its action's page-state value. On a cleanly split deletion it starts exactly at its action, with that action's slice of the deleted tokens. Earlier marks stay marked, without duplicates. |
| ConversationInsert.ClassifyCovers | conversation_reconstruction_dataflow/conversation_reconstruction/construct_utils/conversation_constructor.py:106-110 | A successful classification accounts for every piece. Its action is marked modified, or the piece is a removal candidate holding its action's page-state value. Earlier marks and candidates are kept. |
| ConversationInsert.Scan | conversation_reconstruction_dataflow/conversation_reconstruction/construct_utils/conversation_constructor.py:61-110 | The scan yields `ScanOf`, the loop over the diff written as a recursive function with the current addition test. Every addition is a section of an insertion in the diff that passed the test. Every removal candidate is a candidate of a deletion in the diff. Each modified offset is recorded once. A diff of equal runs yields nothing. |
| ConversationInsert.ScanComplete | conversation_reconstruction_dataflow/conversation_reconstruction/construct_utils/conversation_constructor.py:61-110 | A successful scan's additions are exactly the sections of the insertions passing the test, in diff order. Every insertion was tested without error, and one failing the test marks the action it falls in. Every deletion was split without error, and each piece marks its action or is a removal candidate of it. |
| ConversationInsert.Unmodified | conversation_reconstruction_dataflow/conversation_reconstruction/construct_utils/conversation_constructor.py:113-116 | The kept additions are exactly the additions that do not start at a modified action. |
| ConversationInsert.KeepAdditions | conversation_reconstruction_dataflow/conversation_reconstruction/construct_utils/conversation_constructor.py:113-116 | The filtering loop yields `Unmodified`, in order. |
| ConversationInsert.Confirmed | conversation_reconstruction_dataflow/conversation_reconstruction/construct_utils/conversation_constructor.py:117-120 | Every confirmed removal is a candidate whose action is not modified. `removed_actions` is exactly the set of those candidates' actions. |
| ConversationInsert.ConfirmRemovals | conversation_reconstruction_dataflow/conversation_reconstruction/construct_utils/conversation_constructor.py:117-120 | The confirming loop yields `Confirmed`. |
| ConversationInsert.Rearrange | conversation_reconstruction_dataflow/conversation_reconstruction/construct_utils/conversation_constructor.py:127-170 | The rearrangement loop yields the search `SearchOf` over removals of more than 10 tokens: the kept removals, the additions left, the rearranged offsets and the recorded ranges. Removals of at most 10 tokens are never searched for and are dropped; when all removals are short, nothing changes. Each kept removal is one of the removals and has more than 10 tokens. Each rearranged offset is the old offset of a long removal, and each recorded range spans more than 10 tokens. Kept removals and recorded ranges together number at most the removals. |
| ConversationInsert.IdKey | conversation_reconstruction_dataflow/conversation_reconstruction/construct_utils/conversation_constructor.py:290 | The sort key is defined exactly when the id has a second dot-separated part that is a numeral, and then it is that number. Otherwise it is an IndexError or a ValueError. |
| ConversationInsert.IdKeyOf | conversation_reconstruction_dataflow/conversation_reconstruction/construct_utils/conversation_constructor.py:290 | An id `p.n` or `p.n.more`, with `p` free of dots, has sort key `n`. |
| ConversationInsert.FirstIdError | conversation_reconstruction_dataflow/conversation_reconstruction/construct_utils/conversation_constructor.py:290 | There is no error exactly when every id has a sort key. |
| ConversationInsert.SortByIdKey | conversation_reconstruction_dataflow/conversation_reconstruction/construct_utils/conversation_constructor.py:290 | The sort fails exactly when some id has no number. Otherwise it returns a permutation of the actions in non-decreasing id number, and actions with the same id number keep their input order, as Python's stable `sorted` does. |
| ConversationInsert.IdOrderedSameIds | conversation_reconstruction_dataflow/conversation_reconstruction/construct_utils/conversation_constructor.py:417-420 | Post-processing changes no id, so the actions stay in id order. |
| ConversationInsert.Insert | conversation_reconstruction_dataflow/conversation_reconstruction/construct_utils/conversation_constructor.py:40-291 | A result passes the three assertions: offset 0 is present, the largest offset is the boundary, and no other offset is. The page state carries the revision's page id and title, and the actions come in non-decreasing id number. |
| InsertPhases.MatchOffsets | conversation_reconstruction_dataflow/conversation_reconstruction/construct_utils/conversation_constructor.py:139-141 | A contained removal sits at non-negative token offsets `[start, start + its token count)` of the addition. |
| InsertPhases.MatchOf | conversation_reconstruction_dataflow/conversation_reconstruction/construct_utils/conversation_constructor.py:134-165 | No match exactly when no addition holds the removal. A match names an addition that holds it. |
| InsertPhases.AroundMatchRestores | conversation_reconstruction_dataflow/conversation_reconstruction/construct_utils/conversation_constructor.py:148-157 | The part before the match, the matched tokens and the part after give the addition's tokens back. The parts are non-empty and keep the addition's old offsets. The part before covers the new offsets up to the match; the part after covers those after it. |
| InsertPhases.MatchRemoval | conversation_reconstruction_dataflow/conversation_reconstruction/construct_utils/conversation_constructor.py:134-165 | The inner loop yields `MatchOf`. No match exactly when no addition contains the removed text, and then the additions are unchanged. Otherwise the first addition containing it is replaced by the parts around the match, and the other additions stay in order. |
| InsertPhases.SearchSound | conversation_reconstruction_dataflow/conversation_reconstruction/construct_utils/conversation_constructor.py:127-170 | Every kept removal and every moved removal is one of the removals and long enough to be searched. A moved removal is held by the addition piece it was found in, and the match offsets are those of its text in that piece. That piece, and every addition left, is as text part of one of the original additions. |
| InsertPhases.SearchCovers | conversation_reconstruction_dataflow/conversation_reconstruction/construct_utils/conversation_constructor.py:127-170 | Kept and moved removals together number the searchable removals. Each searchable removal is kept or moved. |
| InsertPhases.SearchUnheld | conversation_reconstruction_dataflow/conversation_reconstruction/construct_utils/conversation_constructor.py:134-165 | A searchable removal that no original addition holds is kept. |
| InsertPhases.SearchDisjoint | conversation_reconstruction_dataflow/conversation_reconstruction/construct_utils/conversation_constructor.py:127-170 | With distinct old offsets, no removal is both kept and moved. |
| InsertPhases.SearchPartition | conversation_reconstruction_dataflow/conversation_reconstruction/construct_utils/conversation_constructor.py:127-170 | With distinct old offsets, a searchable removal is kept exactly when its old offset is not rearranged. A removal too short to search is neither kept nor rearranged. |
| InsertPhases.SearchAllShort | conversation_reconstruction_dataflow/conversation_reconstruction/construct_utils/conversation_constructor.py:131-133 | When every removal is too short to search, nothing is kept or moved and the additions stay as they were. |
| InsertPhases.SearchNoAdditions | conversation_reconstruction_dataflow/construct_utils/conversation_constructor.py:85-120 | With no additions, exactly the searchable removals are kept, in order, and none is moved. |
| InsertPhases.EndsSpanRemovals | conversation_reconstruction_dataflow/conversation_reconstruction/construct_utils/conversation_constructor.py:162-165 | Each recorded range has as many tokens as its moved removal. |
| InsertPhases.RearrangementKeys | conversation_reconstruction_dataflow/conversation_reconstruction/construct_utils/conversation_constructor.py:162-164 | The rearranged offsets are exactly the old offsets of the moved removals. |
| InsertPhases.CarryOver | conversation_reconstruction_dataflow/conversation_reconstruction/construct_utils/conversation_constructor.py:182-193 | The carry-over loop builds the state `CarriedOver` defines. |
| InsertPhases.SurvivorKept | conversation_reconstruction_dataflow/conversation_reconstruction/construct_utils/conversation_constructor.py:182-189 | An old action that is neither modified nor removed is at its located new offset with its `(id, indentation)` unchanged, unless a later old offset writes the same new offset. |
| InsertPhases.CarriedFrom | conversation_reconstruction_dataflow/conversation_reconstruction/construct_utils/conversation_constructor.py:182-193 | Each offset of the carried-over state was written by some old offset with that offset's value: a survivor at its located position, or a rearranged action at its new place. |
| InsertPhases.ModifyOne | conversation_reconstruction_dataflow/conversation_reconstruction/construct_utils/conversation_constructor.py:199-209 | A KeyError exactly when the marked offset is not on the old page. Otherwise the action is the `comment_modification` of the page's action at that offset. Its tokens are the new text between the located left bound of the old start and the located right bound of the old end. The new offset is the one the modification reports and holds its id and indentation. No other offset changes. |
| InsertPhases.Modified | conversation_reconstruction_dataflow/conversation_reconstruction/construct_utils/conversation_constructor.py:197-209 | The loop succeeds exactly when every marked offset is on the old page. It then yields one modification per marked offset and loses no offset. |
| InsertPhases.ModifiedNth | conversation_reconstruction_dataflow/conversation_reconstruction/construct_utils/conversation_constructor.py:197-209 | The i-th modification action is the modification of the i-th marked offset. It is made against the page state the first i modifications left. |
| InsertPhases.Modifications | conversation_reconstruction_dataflow/conversation_reconstruction/construct_utils/conversation_constructor.py:197-209 | The modification loop yields `Modified`. |
| InsertPhases.ModifiedErr | conversation_reconstruction_dataflow/conversation_reconstruction/construct_utils/conversation_constructor.py:199 | A marked offset missing from the old page makes the loop fail with a KeyError. |
| InsertPhases.ModifiedFirstErr | conversation_reconstruction_dataflow/conversation_reconstruction/construct_utils/conversation_constructor.py:197-209 | The only error of the modification loop is the KeyError. |
| InsertPhases.RestoreInAddition | conversation_reconstruction_dataflow/conversation_reconstruction/construct_utils/conversation_constructor.py:213-254 | The search in one addition yields `RestoredIn`: the restoration loop over the trie matches of the addition's text, then the tail piece. It also states `RestoredInFacts`. |
| InsertPhases.RestoredInFacts | conversation_reconstruction_dataflow/conversation_reconstruction/construct_utils/conversation_constructor.py:213-254 | There is one restoration action per restored range. The restored ranges start at or after the addition and are in order without overlap; in the current constructor each is non-empty and ends inside the addition. The leftover pieces are non-empty ranges with the addition's old offsets. The page state gains exactly the restored offsets, each holding a trie value, and keeps the rest. |
| InsertPhases.RestoredInGaps | conversation_reconstruction_dataflow/conversation_reconstruction/construct_utils/conversation_constructor.py:213-254 | The leftover pieces are exactly the gaps before each restored range, followed by the tokens after the last one. Each restoration restores exactly the tokens of its range, at its start, with the id of a trie match. Without the guard there is one restoration per match. |
| InsertPhases.RestoreMatchesRestoring | conversation_reconstruction_dataflow/conversation_reconstruction/construct_utils/conversation_constructor.py:213-243 | After any matches drawn from the addition's matches, the loop's ranges are in order inside the addition, its pieces are non-empty ranges of it, and the page state gains exactly the restored offsets. |
| InsertPhases.Restorations | conversation_reconstruction_dataflow/conversation_reconstruction/construct_utils/conversation_constructor.py:213-255 | The loop over all additions yields `RestorationsOf`: the search in each addition in turn, each starting from the page state the previous one left. Over all additions there is one restoration per restored range. No offset is lost, the leftover pieces are non-empty, and in the current constructor every range is non-empty. |
| InsertPhases.RestorationsOfState | conversation_reconstruction_dataflow/conversation_reconstruction/construct_utils/conversation_constructor.py:213-255 | Over all additions there is one restoration per restored range. The page state gains exactly the restored offsets and keeps every other entry. Every leftover piece is a non-empty range of one of the additions. In the current constructor every range is non-empty. |
| InsertPhases.AddOne | conversation_reconstruction_dataflow/conversation_reconstruction/construct_utils/conversation_constructor.py:259-261 | An addition adds its offset, holding its id and indentation, and changes no other offset. |
| InsertPhases.Added | conversation_reconstruction_dataflow/conversation_reconstruction/construct_utils/conversation_constructor.py:258-262 | There is one addition action per addition, and no offset is lost. |
| InsertPhases.AddedGrowth | conversation_reconstruction_dataflow/conversation_reconstruction/construct_utils/conversation_constructor.py:258-262 | The page state grows by at most one offset per addition. |
| InsertPhases.AddComments | conversation_reconstruction_dataflow/conversation_reconstruction/construct_utils/conversation_constructor.py:258-262 | The addition loop yields `Added` and records each addition's new range as an end to pad. |
| InsertPhases.RegisterRemovals | conversation_reconstruction_dataflow/conversation_reconstruction/construct_utils/conversation_constructor.py:174-175 | There is one removal action per confirmed removal, in order. |
| InsertPhases.PadValue | conversation_reconstruction_dataflow/conversation_reconstruction/construct_utils/conversation_constructor.py:266-267 | Finding the pad value fails (IndexError) exactly on an empty page state. |
| InsertPhases.PadValueBefore | conversation_reconstruction_dataflow/conversation_reconstruction/construct_utils/conversation_constructor.py:266-267 | The pad value is the value of the offset just before the one `find_pos` picks for the start. It wraps round to the largest offset when `find_pos` picks the first. |
| InsertPhases.IndexBefore | conversation_reconstruction_dataflow/conversation_reconstruction/construct_utils/conversation_constructor.py:267 | `tmp_lst[i - 1]` at `i = 0` reads the last element. |
| InsertPhases.PadOne | conversation_reconstruction_dataflow/conversation_reconstruction/construct_utils/conversation_constructor.py:264-270 | An end offset already present changes nothing. A missing one is added with its pad value, and nothing else changes. It fails exactly on an empty page state. |
| InsertPhases.Padded | conversation_reconstruction_dataflow/conversation_reconstruction/construct_utils/conversation_constructor.py:264-270 | Padding fails exactly when there are ends to pad on an empty page state. |
| InsertPhases.PaddedCovers | conversation_reconstruction_dataflow/conversation_reconstruction/construct_utils/conversation_constructor.py:264-270 | After padding, every end offset is present and every earlier offset keeps its value. Every new offset is an end offset. |
| InsertPhases.PadEndTokens | conversation_reconstruction_dataflow/conversation_reconstruction/construct_utils/conversation_constructor.py:264-270 | The padding loop yields `Padded`. |
| LegacyInsert.IsCommentAddition | conversation_reconstruction_dataflow/construct_utils/conversation_constructor.py:46-56 | The older test: an insertion at an old action offset is an addition exactly when it starts with a break, sits at old offset 0, or follows a break, where the preceding token is read with Python's negative indexing. There is no line-end test. Errors are the empty insertion, and a preceding-token index outside the text when the insertion neither starts with a break nor sits at old offset 0. |
| LegacyInsert.StartOfTextReadsLastToken | conversation_reconstruction_dataflow/construct_utils/conversation_constructor.py:47-48 | An insertion at new offset 0 but not at old offset 0 is judged by the last token of the new text. |
| LegacyInsert.Scan | conversation_reconstruction_dataflow/construct_utils/conversation_constructor.py:39-78 | The scan yields `ScanOf` with the older addition test and without skipping marked actions. Additions come from insertions passing the older test. Every removal candidate is a candidate of a deletion in the diff, as the current constructor defines it. Each modified offset is recorded once. A diff of equal runs yields nothing. |
| LegacyInsert.Rearrange | conversation_reconstruction_dataflow/construct_utils/conversation_constructor.py:85-120 | The rearrangement loop yields the search `SearchOf` over all removals, and one `comment_rearrangement` per moved removal (`MovedActions`). Kept removals and rearrangement actions together number exactly the removals, and there is one range per rearrangement action. Every kept removal is a removal, every rearrangement action is built from some removal, and each rearranged offset is a removal's old offset. With no additions every removal is kept. |
| LegacyInsert.MovedActionsRearranged | conversation_reconstruction_dataflow/construct_utils/conversation_constructor.py:101-110 | The k-th rearrangement action is the rearrangement of the k-th moved removal. |
| LegacyInsert.WellFormedIsEndChecked | conversation_reconstruction_dataflow/construct_utils/conversation_constructor.py:207-212 | The current assertions imply the older ones. |
| LegacyInsert.EndCheckedAllowsTwoBoundaries | conversation_reconstruction_dataflow/construct_utils/conversation_constructor.py:207-212 | The older checks accept a page state with a second boundary, which the current checks reject. |
| LegacyInsert.Insert | conversation_reconstruction_dataflow/construct_utils/conversation_constructor.py:19-215 | A result has offset 0, its largest offset is the boundary, and it carries the revision's page id and title. |
| PostProcessing.Stamp | conversation_reconstruction_dataflow/construct_utils/conversation_constructor.py:286-288 | A stamped action carries the page id and title and is otherwise the same action. |
| PostProcessing.TrieEntriesAppend | conversation_reconstruction_dataflow/conversation_reconstruction/construct_utils/conversation_constructor.py:422-425 | One more action adds its entry exactly when it is a removal of more than the threshold. |
| PostProcessing.TrieEntriesFrom | conversation_reconstruction_dataflow/construct_utils/conversation_constructor.py:289-290 | Every recorded entry is the text and `(parent, indentation)` of a long removal among the actions. |
| PostProcessing.DeletedParentsIff | conversation_reconstruction_dataflow/conversation_reconstruction/construct_utils/conversation_constructor.py:422-424 | An action becomes a deleted record exactly when it is the parent of some removal of more than the threshold among the actions. |
| PostProcessing.TrieEntriesComplete | conversation_reconstruction_dataflow/construct_utils/conversation_constructor.py:289-290 | Every long removal among the actions is recorded. |
| ConversationConstructor.Lookup | conversation_reconstruction_dataflow/conversation_reconstruction/construct_utils/conversation_constructor.py:398 | A lookup by reference succeeds exactly for a real id that is a key; otherwise it is a KeyError. |
| ConversationConstructor.ConversationOf | conversation_reconstruction_dataflow/conversation_reconstruction/construct_utils/conversation_constructor.py:393-416 | A new or modified comment, a section, or a rearranged comment that replies to nothing starts its own conversation. One that replies joins the conversation of the comment it replies to, or raises a KeyError. A removal or restoration joins its parent's conversation. |
| ConversationConstructor.AuthorsOf | conversation_reconstruction_dataflow/conversation_reconstruction/construct_utils/conversation_constructor.py:399-405 | A new comment or section has its user alone as author. A modification has the parent's authors plus the modifier, and nothing else. Any other action keeps the parent's authors. A missing parent is a KeyError. |
| ConversationConstructor.Pruned | conversation_reconstruction_dataflow/conversation_reconstruction/construct_utils/conversation_constructor.py:357-363 | An entry is kept exactly when its key is one of the kept ids, and kept entries keep their values. |
| ConversationConstructor.PrunedIdempotent | conversation_reconstruction_dataflow/conversation_reconstruction/construct_utils/conversation_constructor.py:426-427 | Pruning an already pruned map changes nothing. |
| ConversationConstructor.PostStep | conversation_reconstruction_dataflow/conversation_reconstruction/construct_utils/conversation_constructor.py:393-405 | A step succeeds exactly when the action's conversation and authors can both be found. |
| ConversationConstructor.PostStepKeys | conversation_reconstruction_dataflow/conversation_reconstruction/construct_utils/conversation_constructor.py:393-405 | A successful step adds the action's id to both maps and keeps every other entry. |
| ConversationConstructor.PostMapsPrefixErr | conversation_reconstruction_dataflow/conversation_reconstruction/construct_utils/conversation_constructor.py:389-425 | Once a prefix of the actions fails, the whole post-processing fails. |
| ConversationConstructor.PostMapsKeys | conversation_reconstruction_dataflow/conversation_reconstruction/construct_utils/conversation_constructor.py:389-425 | After a successful post-processing every action's id has a conversation and authors. Every earlier entry is kept unless one of the actions has its id. |
| ConversationConstructor.PostMapsProcessed | conversation_reconstruction_dataflow/conversation_reconstruction/construct_utils/conversation_constructor.py:389-425 | The maps depend only on the fields post-processing leaves as they were, so the fold over the returned actions equals the fold over the inserted ones. |
| ConversationConstructor.Constructor.constructor | conversation_reconstruction_dataflow/conversation_reconstruction/construct_utils/conversation_constructor.py:295-306 | A new constructor has no page and no recorded state, with `NOT_EXISTED` set. |
| ConversationConstructor.Constructor.PageCreation | conversation_reconstruction_dataflow/conversation_reconstruction/construct_utils/conversation_constructor.py:308-315 | The created page is `{0: (-1, -1)}` for the revision's page, and is well formed. `NOT_EXISTED` becomes false, and nothing else changes. |
| ConversationConstructor.Constructor.CleanDict | conversation_reconstruction_dataflow/conversation_reconstruction/construct_utils/conversation_constructor.py:350-363 | `clean_dict` keeps exactly the entries whose action is alive on the page or recorded as deleted. |
| ConversationConstructor.Constructor.Record | conversation_reconstruction_dataflow/conversation_reconstruction/construct_utils/conversation_constructor.py:422-425 | A removal of more than 10 tokens is appended to the deleted comments and to the trie, and its parent becomes a deleted record. Anything else changes nothing. |
| ConversationConstructor.Constructor.PostProcess | conversation_reconstruction_dataflow/conversation_reconstruction/construct_utils/conversation_constructor.py:389-425 | It succeeds exactly when the action's conversation and authors can be found. The action's id is then mapped to them, and the action comes back stamped with the page and carrying both. A long removal is recorded. |
| ConversationConstructor.Constructor.PostProcessNext | conversation_reconstruction_dataflow/conversation_reconstruction/construct_utils/conversation_constructor.py:389-425 | One turn of the loop: it succeeds exactly when `PostStep` does, and the maps become the step's. The action comes back post-processed. When it is a long removal, its entry is appended to the deleted comments and to the trie, and its parent is added to the deleted records. Otherwise none of the three changes. |
| ConversationConstructor.Constructor.PostProcessAll | conversation_reconstruction_dataflow/conversation_reconstruction/construct_utils/conversation_constructor.py:389-425 | It succeeds exactly when `PostMaps`, the fold of the map updates over the actions, does, and then the maps are that fold's. Each action comes back with the same id, kind, content, parent, reply and user, stamped and carrying a conversation and authors. The entries of exactly the long removals among them are appended, in order, to the deleted comments and to the trie. The parents of those removals are added to the deleted records. |
| ConversationConstructor.Constructor.Prepare | conversation_reconstruction_dataflow/conversation_reconstruction/construct_utils/conversation_constructor.py:368-383 | The revision id is appended. The cleaned text is diffed against the previous content and replaces it. The first revision gets a created page and an empty trie; later ones continue from the stored page and trie. |
| ConversationConstructor.Constructor.Process | conversation_reconstruction_dataflow/conversation_reconstruction/construct_utils/conversation_constructor.py:365-436 | On success the stored page state passes the assertions for the revision's page. The returned record holds the new state. Every action is stamped, has a conversation and authors, and the actions are in id order. The entries of exactly their long removals are appended to the deleted comments. The trie holds those entries too, after a new empty trie for the page's first revision and after the stored trie otherwise. The parents of those removals are added to the deleted records. The conversation and authorship maps are the fold of the map updates over the returned actions, pruned to the live ids. |
| LegacyConstructor.PageCreation | conversation_reconstruction_dataflow/construct_utils/conversation_constructor.py:256-264 | The created page is `{0: (-1, -1)}` for the revision's page. An empty diff is the IndexError of reading its first operation. |
| LegacyConstructor.Latest | conversation_reconstruction_dataflow/construct_utils/conversation_constructor.py:271 | The default dictionary reads a page it has not seen as "". |
| LegacyConstructor.Constructor.constructor | conversation_reconstruction_dataflow/construct_utils/conversation_constructor.py:219-227 | A new constructor has no pages, no tries and no latest texts. |
| LegacyConstructor.Constructor.Open | conversation_reconstruction_dataflow/construct_utils/conversation_constructor.py:268-281 | The cleaned text is diffed against the page's latest text. A page seen for the first time gets an empty trie and a created page; a known page keeps its trie and stored page. Only this page's entries change. It fails exactly for a new page with an empty diff, which leaves that page's trie empty and its text "". |
| LegacyConstructor.Constructor.RecordAll | conversation_reconstruction_dataflow/construct_utils/conversation_constructor.py:286-290 | Every action is stamped with the page. Exactly the removals of more than 3 tokens are added to this page's trie, in order. Nothing else changes. |
| LegacyConstructor.Constructor.Process | conversation_reconstruction_dataflow/construct_utils/conversation_constructor.py:267-293 | Only the revision's page changes, in the page map, the tries and the latest texts. A page seen for the first time with an empty diff fails, gets no page state, and is left with an empty trie and text "". On success the page's latest text is the cleaned text and its stored page passes the older checks for the revision's page. The page's trie grows by exactly the long removals. Every action is stamped. |
| Perspective.FirstLikely | antidox/perspective.py:98-102 | The first finding that is not passed over decides: a missing likelihood is a KeyError, and a LIKELY or VERY_LIKELY finding reports its info type name, or is a KeyError when that name is missing. A finding is passed over when its likelihood is present and neither label. The result is `(False, None)` exactly when every finding is passed over. |
| Perspective.ContainsPii | antidox/perspective.py:89-102 | A response without `result` is a KeyError. No `findings` key means `(False, None)`; otherwise the loop over the findings decides. False always comes with None. The result is `(False, None)` exactly when `result` is present and either there is no `findings` key or every finding is passed over. |
| Perspective.PerspectiveRequest | antidox/perspective.py:26-33 | The request carries the comment unchanged and asks for exactly TOXICITY, THREAT and INSULT. |
| Perspective.ContainsToxicity | antidox/perspective.py:105-111 | The result is true exactly when the TOXICITY score is at least 0.5. A missing score is a KeyError. |
| ShardWriter.KeyRoundTrip | conversation_reconstruction_dataflow/conversation_reconstruction/shard_result.py:66-90 | Parsing a `'{month}at{year}'` key gives back that month and year. |
| ShardWriter.Projected | conversation_reconstruction_dataflow/conversation_reconstruction/shard_result.py:79-86 | The row has exactly the 14 schema fields, so an input key outside the schema never appears in it. |
| ShardWriter.CleanSchema | conversation_reconstruction_dataflow/conversation_reconstruction/shard_result.py:79-86 | The row has the 14 schema fields in schema order. Present fields are copied and missing ones are None. |
| ShardWriter.ProbedPathsBound | conversation_reconstruction_dataflow/conversation_reconstruction/shard_result.py:101-105 | The probe cannot run past the number of existing paths, so it ends. |
| ShardWriter.FirstFreeIndex | conversation_reconstruction_dataflow/conversation_reconstruction/shard_result.py:101-105 | The chosen index is the smallest one whose path does not exist. |
| ShardWriter.WriteToStorage.constructor | conversation_reconstruction_dataflow/conversation_reconstruction/shard_result.py:71-78 | A new writer over the given file system has no file open, no month and no year, and zero counters. |
| ShardWriter.WriteToStorage.StartBundle | conversation_reconstruction_dataflow/conversation_reconstruction/shard_result.py:71-78 | `start_bundle` resets the open file, the month, the year and both counters, and leaves the files as they are. |
| ShardWriter.WriteToStorage.CloseOutput | conversation_reconstruction_dataflow/conversation_reconstruction/shard_result.py:91-93 | The open file, if any, is closed. Nothing else changes. |
| ShardWriter.WriteToStorage.OpenFor | conversation_reconstruction_dataflow/conversation_reconstruction/shard_result.py:94-107 | The rotation step: the old file is closed and the counters reset. The first free path of the month is created empty and opened. |
| ShardWriter.WriteToStorage.WriteGroup | conversation_reconstruction_dataflow/conversation_reconstruction/shard_result.py:108-113 | The group's projected, serialised records are appended to the open file in order. The size grows by their total length and the file count by their number. |
| ShardWriter.WriteToStorage.Process | conversation_reconstruction_dataflow/conversation_reconstruction/shard_result.py:88-115 | A malformed key changes nothing. The writer rotates exactly when no file is open, the size is over the threshold, or the month or year changed; it then writes the group to a fresh first-free file. Otherwise it appends the group to the open file and adds to the counters. No other file changes. |
| ShardWriter.WriteToStorage.FinishBundle | conversation_reconstruction_dataflow/conversation_reconstruction/shard_result.py:116-118 | After `finish_bundle` no file is open, and the files are unchanged. |
| Batching.Width | viz_v2/wiki_categorize/src/main.ts:59 | The effective chunk length is the size, or 1 for size 0, where `i % 0` is NaN. |
| Batching.Chunk | viz_v2/wiki_categorize/src/main.ts:57-61 | Concatenating the chunks gives the input back. Every chunk is non-empty and at most the size, and all but the last are full. An empty input gives no chunks. Element i is at position `i % size` of chunk `i / size`. |
| Batching.ChunkPositions | viz_v2/wiki_categorize/src/main.ts:59-61 | In chunks of n, element i of the flattening is at position `i % n` of chunk `i / n`. |
| Batching.LookupTitle | viz_v2/wiki_categorize/src/main.ts:34-35 | The lookup title is the page title without its first five characters, and empty for a shorter title. |
| Batching.ProcessRow | viz_v2/wiki_categorize/src/main.ts:37-43 | A row whose lookup is undefined is written with no categories. Otherwise it is written with the classifier's result on the categories. |
| Batching.ProcessRows | viz_v2/wiki_categorize/src/main.ts:31-55 | There is one write per row; the model fixes the writes in row order. |
| Batching.ProcessRowsAppend | viz_v2/wiki_categorize/src/main.ts:47-52 | The writes of consecutive chunks are consecutive. |
| Batching.ProcessData | viz_v2/wiki_categorize/src/main.ts:31-55 | The chunks are visited in ascending order and there is one write per row; the model fixes the writes in row order. No chunks at all is the error of reading the missing first chunk. |
| Batching.GetData | viz_v2/wiki_categorize/src/main.ts:25-29 | There is one write per row; the model fixes the writes in row order. No rows is an error. |
| WikiCategories.KeptNames | viz_v2/wiki_categorize/src/getWikiCategories.ts:27-31 | Each kept name is the stripped title of a category with no keyword. There are none exactly when every title has a keyword. |
| WikiCategories.KeptIffNoKeyword | viz_v2/wiki_categorize/src/getWikiCategories.ts:27-30 | A category is kept, stripped of `Category:`, exactly when its title contains none of the keywords. |
| WikiCategories.KeptNamesAppend | viz_v2/wiki_categorize/src/getWikiCategories.ts:27-31 | The kept names keep their input order. |
| WikiCategories.CleanCategories | viz_v2/wiki_categorize/src/getWikiCategories.ts:26-38 | The result is undefined exactly when nothing survives the filter; otherwise it is the kept names joined with `, `. |
| WikiCategories.CleanSingle | viz_v2/wiki_categorize/src/getWikiCategories.ts:32-37 | A single surviving category gives its stripped name alone. |
| WikiCategories.TruncateTitle | viz_v2/wiki_categorize/src/getWikiCategories.ts:41-43 | A title containing `/Archive` is cut to the text before its first `/`; any other title is unchanged. |
| WikiCategories.TruncateArchive | viz_v2/wiki_categorize/src/getWikiCategories.ts:41-43 | A title `base/rest` with no `/` in `base` and `/Archive` somewhere in `rest` is cut to `base`. The cut is at the first `/`, even when `/Archive` comes later. |
| WikiCategories.GetWikiCategories | viz_v2/wiki_categorize/src/getWikiCategories.ts:41-72 | A result exists exactly when the query succeeds with a category list and some category survives. It is then the truncated title, `, ` and the cleaned categories. |
| NaturalLanguage.StripName | viz_v2/wiki_categorize/src/naturalLanguage.ts:25 | The stripped name is the name without its first character. |
| NaturalLanguage.StripTwice | viz_v2/wiki_categorize/src/naturalLanguage.ts:25 | Because names are overwritten in place, a second clean strips a second character. |
| NaturalLanguage.Segment | viz_v2/wiki_categorize/src/naturalLanguage.ts:28-30 | A segment is null exactly when it is missing or empty. |
| NaturalLanguage.BuildRecord | viz_v2/wiki_categorize/src/naturalLanguage.ts:26-31 | The levels are segments 0, 1 and 2 of the stripped name split on `/`, a missing or empty one null. The category is the text before the first `/`, or the whole name when it has none; it is a prefix of the name with no `/`. The confidence is copied. A name without `/` gives no sub-levels. |
| NaturalLanguage.BuildRecordLevels | viz_v2/wiki_categorize/src/naturalLanguage.ts:25-31 | For paths of up to three non-empty levels, the levels are exactly the path's parts, so joining them gives the stripped name back. |
| NaturalLanguage.BuildRecordPath | viz_v2/wiki_categorize/src/naturalLanguage.ts:26-30 | A path of levels free of `/` gives its first level as the category and its second and third as the sub-levels, an empty one null. Levels past the third are dropped. |
| NaturalLanguage.BuildRecordExamples | viz_v2/wiki_categorize/src/naturalLanguage.ts:26-30 | `a/b/c/d` gives `a`, `b` and `c`, dropping `d`. `a//b` gives `a`, a null second level and `b`. |
| NaturalLanguage.StrippedAll | viz_v2/wiki_categorize/src/naturalLanguage.ts:25 | Each category's name is overwritten by its stripped name; nothing else changes. |
| NaturalLanguage.Built | viz_v2/wiki_categorize/src/naturalLanguage.ts:24-33 | There is one record per category, in input order. |
| NaturalLanguage.CleanedRecords | viz_v2/wiki_categorize/src/naturalLanguage.ts:35 | The result is a permutation of the built records, in non-increasing confidence. Records with equal confidence keep their input order, since the comparator returns 0 for them and the sort is stable. |
| NaturalLanguage.CleanedConfidences | viz_v2/wiki_categorize/src/naturalLanguage.ts:31-35 | Every record's confidence is that of some input category. |
| NaturalLanguage.CleanedKeepsSortedOrder | viz_v2/wiki_categorize/src/naturalLanguage.ts:35 | Categories already in descending confidence keep their order. |
| NaturalLanguage.CleanCatResults | viz_v2/wiki_categorize/src/naturalLanguage.ts:20-37 | The array's names are stripped in place, and the result is the cleaned records. |
| NaturalLanguage.ClassifierContent | viz_v2/wiki_categorize/src/naturalLanguage.ts:40 | The content is the category text, then a two-character separator, then the title. |
| NaturalLanguage.CloudCategoryStep | viz_v2/wiki_categorize/src/naturalLanguage.ts:40-61 | A reply gives the cleaned records. Too few tokens retries with the content repeated. A quota error gives a timer; any other error gives undefined. |
| NaturalLanguage.RetryGrows | viz_v2/wiki_categorize/src/naturalLanguage.ts:51-52 | Each retry sends strictly longer content that starts with the previous content. |
| Sorting.SortBy | viz_v2/wiki_categorize/src/naturalLanguage.ts:35 | The sort returns a permutation of its input in non-decreasing key order. |
| Sorting.SortByStable | viz_v2/wiki_categorize/src/naturalLanguage.ts:35 | The sort is stable: for every key, the elements with that key appear in the output in the same order as in the input. |
| Sorting.SortBySorted | viz_v2/wiki_categorize/src/naturalLanguage.ts:35 | An already sorted input comes back unchanged. |
| ParticleSystem.RadiusBounds | viz_v2/src/components/canvas/particleSystem/Particles.js:111-114 | The radius lies between half the configured scale and all of it, and is all of it from 280 comments on. |
| ParticleSystem.RadiusMonotone | viz_v2/src/components/canvas/particleSystem/Particles.js:111-114 | More comments never give a smaller sphere. |
| ParticleSystem.SizeWeight | viz_v2/src/components/canvas/particleSystem/Particles.js:116-123 | The weight is never below 1.45, nor below the smaller window side over 300. |
| ParticleSystem.SmallSystemsLarger | viz_v2/src/components/canvas/particleSystem/Particles.js:116-123 | Under 90 comments the weight is exactly 1.2 times the weight for 90 or more. |
| ParticleSystem.TargetSizeSign | viz_v2/src/components/canvas/particleSystem/Particles.js:91-97 | With a positive weight a deletion's target is positive, and a comment's target is negative exactly below toxicity 0.75. |
| ParticleSystem.EntryStepPositive | viz_v2/src/components/canvas/particleSystem/Particles.js:139-155 | Every particle's entry step is positive. |
| ParticleSystem.ExitStepPositive | viz_v2/src/components/canvas/particleSystem/Particles.js:185-200 | Every particle's exit step is positive. |
| ParticleSystem.EntryScale | viz_v2/src/components/canvas/particleSystem/Particles.js:154-158 | The scale either grows by the step or snaps to the target. It never passes the target, and it never shrinks when below it. |
| ParticleSystem.ExitScale | viz_v2/src/components/canvas/particleSystem/Particles.js:199-203 | The scale either shrinks by the step or snaps to zero. It never goes below zero, and never grows. |
| ParticleSystem.FillBuffers | viz_v2/src/components/canvas/particleSystem/Particles.js:78-102 | The buffers hold 3, 4, 1 and 1 entries per comment: sphere coordinates, RGB and alpha 1, an initial scale of 0.001, and the target size. |
| ParticleSystem.WriteParticle | viz_v2/src/components/canvas/particleSystem/Particles.js:83-102 | One step writes particle i's coordinates, colour, scale and target, and keeps the earlier particles. |
| ParticleSystem.Particles.constructor | viz_v2/src/components/canvas/particleSystem/Particles.js:45-54 | A new system is spinning, not exiting and not loaded. Its radius is that of its comment count, and its buffers are filled. |
| ParticleSystem.Particles.GetRadius | viz_v2/src/components/canvas/particleSystem/Particles.js:111-114 | `getRadius` returns the radius for the count, stores it, and changes nothing else. |
| ParticleSystem.Particles.InitGeometry | viz_v2/src/components/canvas/particleSystem/Particles.js:72-109 | Fresh buffers are filled as `FillBuffers` states, with the stored radius and the window's size weight. The flags are unchanged. |
| ParticleSystem.Particles.EntryFrame | viz_v2/src/components/canvas/particleSystem/Particles.js:127-168 | Without spin nothing changes. With spin the rotation advances by 0.0002. Unless exiting or loaded, every scale takes one entry step, no scale passes its target, and the timer gets the last particle's delay, at least 800. Only the scale buffer is written. |
| ParticleSystem.Particles.FinishLoading | viz_v2/src/components/canvas/particleSystem/Particles.js:160-165 | The timer sets `finishedLoading` and changes nothing else. |
| ParticleSystem.Particles.ExitFrame | viz_v2/src/components/canvas/particleSystem/Particles.js:174-205 | Before the exit is requested nothing changes. After it, loading is marked unfinished and every scale takes one exit step. None goes below zero, and a non-negative scale never grows. |
| ParticleSystem.Particles.AnimateExit | viz_v2/src/components/canvas/particleSystem/Particles.js:208-210 | `animateExit` sets `exit` and changes nothing else, so repeating it changes nothing. |

## Left out

- The tokenizer, markup cleaner, token diff (with `convert_diff_format` and `diff_tuning`) and the NoAho trie search are parameters without contracts. So are the section divider, `get_action_start`, `get_action_end`, `locate_new_token_pos` and the action constructors of `actions`. Their code is not part of this model.
- `find_pos` is not part of this model's sources. `PageState.FindPos` models it as the index of the last offset at or before the position, or 0 when there is none.
- The deleted-comment trie is modelled as the sequence of `(text, (parent, indentation))` entries added to it; its search is the `findAllLong` parameter.
- The JSON side of the constructors is left out: `load`, `save`, `json.dumps` of the page-state record, the tracking file and `cleanup`. The record holds the model's values, and authors are sets, not JSON lists.
- Timestamps are passed through, and `int(rev['rev_id'])` is taken as already an integer.
- Text.ParseInt: Python 2's `int()` also reads decimal digits of other scripts (such as Arabic-Indic digits) in unicode text; the model reads ASCII digits only. Blanks around the numeral and a sign are modelled. An underscore is refused, as Python 2 refuses it.
- The keys of `modification_actions` are visited in insertion order. Python 2 dictionaries promise no order, and the model fixes this one. `clean_dict` deletes while iterating; this is modelled as Python 2 `keys()` does it, over a snapshot of the keys.
- The current constructor's initial empty page dictionary is modelled as a page with empty id, title and offsets.
- `DEBUGGING_MODE` output is left out.
- ConversationConstructor.Constructor.Process: on an exception, only the revision-id list, the latest text and `NOT_EXISTED` are stated. The other fields are left as the partial updates made before the exception, without a contract.
- ConversationInsert.Insert: its contract covers the final assertions, the page identity and the id order. Each phase it calls is proved equal to its recursive definition: `ScanOf`, `SearchOf`, `Modified`, `RestorationsOf` and `Added`. The contract does not compose these into one statement of the returned actions.
- LegacyInsert.Insert: its contract covers the older boundary checks and the page identity only. The phases are stated by their own members and proved equal to the same recursive definitions. The contract does not compose them.
- LegacyInsert.Rearrange: states that the addition piece a removal is matched in is, as text, part of one of the original additions, and where the match lies inside that piece. It does not state by offsets that the new range lies within the original addition's `[b1, b2)`.
- ConversationInsert.Rearrange: the same holds as for LegacyInsert.Rearrange. Containment by offsets is not stated.
- Batching.ProcessData: `Promise.all` runs the rows of a chunk concurrently, so the table sees the writes in completion order, not row order. The model fixes them in row order. A rejected row promise goes to `.catch`, which logs the error and schedules no later chunk. The model has no failing lookup or classifier, so every chunk is processed.
- `conversation_classification/kaggle/model.py` (TensorFlow, pandas) is left out: it is machine-learning plumbing.
- The Google Cloud DLP and Perspective HTTP calls, `dlp_request` and `perspective.main` are left out: they are network and file I/O.
- Three.js objects, the shaders, `computeBoundingSphere` and the window are left out. `fibonacciSphere` is the `sphere` parameter; the window size is passed as parameters.
- The `finishedLoading` timeout is the `FinishLoading` event method, and the entry frame returns its delay. Float32 rounding is not modelled: numbers are reals.
- The Wikipedia fetch and its JSON are the `fetch` parameter. The language client is a reply value. `CloudCategoryStep` models one round of the unbounded retry; the quota branch's timer and the undefined text it later passes are not followed.
- BigQuery, `Promise.all` and the `setTimeout` pacing of `processData` are left out. The lookup and the classifier are parameters, and the table write is the returned sequence of writes.
- Beam's wiring (`run`), `strptime` and the real file system are left out. The file system is a map from paths to written lines, and `json.dumps` is a parameter.

## Findings

| source | as written | input that shows it | evidently intended | confidence | as-written member | corrected member |
|---|---|---|---|---|---|---|
| conversation_reconstruction_dataflow/construct_utils/conversation_constructor.py:47-48 | The line-start test reads `rev_text[op['b1'] - 1]` whenever the insertion is not at old offset 0 and does not start with a break. At `b1 == 0` that is index -1, the last token of the new text. | An insertion of `x` at old offset 3 (an action boundary) and new offset 0. It is a modification when the text ends with `y` and an addition when the text ends with a line break. | An insertion at the very start of the new text opens a line. The current constructor tests `b1 == 0` and guards `b1 > 0` before indexing. | not executed | LegacyInsert.StartOfTextReadsLastToken | ConversationInsert.IsCommentAddition |
