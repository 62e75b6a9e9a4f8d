# kmol-editor outline engine

A Dafny model of the outline engine of kmol-editor. The engine turns flat text files into a tree of text fragments and flattens the tree back into files. The model covers these parts:

- **Strings** (`strs.dfy`): the Python and Qt string operations the engine relies on. These are `split('\n')`, `'\n'.join`, `splitlines()`, `split(maxsplit=1)`, `QFileInfo.fileName`, `completeSuffix` and `suffix`.
- **Content store** (`store.dfy`): class `DataDict`, a map from integer codes to fragment texts that answers `""` for a code it does not hold. It also carries the members its callers use: `new_num`, `pop`, `update`, the saved flags and the macro table.
- **Outline tree** (`outline.dfy`): outline items as values `Node(name, path, code, children)`. An item is addressed by its index path from the top-level list down.
- **Path resolution** (`paths.dfy`): `file_suffix`, `node_getpath` and `getpath` of `core/parsers/misc.py`, and their older twins `_getpath` and `getpath` in `core/parser.py`. The Qt path helpers are uninterpreted functions.
- **Markdown heading outliner** (`markdown.dfy`): `parse_markdown` of `core/parsers/markdown.py`, which `_parse_markdown` of `core/parser.py` repeats line for line.
  - The scan loop tracks ``` fences and finds ATX and Setext headings.
  - The document is cut into one fragment per heading, with an `@others` line where a deeper heading follows.
  - The backward `parent` search nests each heading under the nearest earlier heading of a smaller level.
- **Tree serializer** (`serializer.dfy`): `save_file` of both versions.
  - The children are saved first.
  - The saved flags are combined with AND.
  - Every `@others` line is replaced by the children's texts.
  - The writes the call performs are returned as a list of actions.
- **Project codecs**:
  - `codec.dfy`: the YAML `_write_tree` / `_parse_tree`.
  - `xmlcodec.dfy`: the older XML pair.
  - Both work over the descriptor tree `{code, name, path, sub}` and a code-to-text map, not over YAML or XML text.
- **Loader** (`loader.dfy`): `parse` of both versions.
  - It reuses or allocates the item's code and dispatches on the file suffix.
  - For a project file it rebuilds the tree, then parses every queued file item.
- **Window tree actions** (`mainwindow.dfy`): class `Window`, with the top-level items, the current item and the store. It models the main window's tree actions:
  - move up, down, right and left;
  - add;
  - copy and clone, flat and recursive;
  - delete with its data;
  - the helpers `_get_root` and `_str_between`.

File reads are inputs to the model (`Option` values, `None` for a missing file), and file writes are returned actions. The YAML and XML documents are values of the `Project` and `XmlRoot` datatypes.

The model follows the code in these details:

- `DataDict.__setitem__` only stores the text (`core/data_structure.py:30-31`). It does not update a saved flag.
- The newline step of `save_file` appends one `'\n'` when the text does not end in one. It does not reduce several trailing newlines to one.
- The XML `_write_tree` does not embed the project item's own text (`XmlCodec.XmlTextsAfterLoad`). The YAML one does (`Codec.YamlRestoresRoot`).

A heading line that is both an ATX heading and underlined (`# A` followed by `===`) is recorded twice on the same line. The next fragment is then empty, and `doc[0]` raises `IndexError` (`Markdown.DuplicateTitle`). The model carries this as the `crashed` result of `Markdown.ParseMarkdown` and the `ok` result of `Loader.Parse`.

## Model

| member | source | states |
|---|---|---|
| Strs.JoinSplit | core/parsers/markdown.py:28 | Joining the pieces of `s.split(sep)` with `sep` gives `s` back. |
| Strs.SplitJoin | core/parsers/markdown.py:56 | Splitting a join of separator-free parts gives the parts back. |
| Strs.SplitLines | core/parsers/__init__.py:177 | `splitlines()` yields no line for the empty text, and no line holds a line boundary. |
| Strs.SplitLinesSingle | core/parsers/__init__.py:177 | A non-empty text without line boundaries is a single line. |
| Strs.SplitOnceShape | core/parsers/markdown.py:48 | `split(maxsplit=1)` has at most two parts, has none exactly for a whitespace-only text, has no empty part, and its first part holds no whitespace. |
| Strs.SplitOnceRest | core/parsers/markdown.py:86 | The second part of `split(maxsplit=1)` is a proper suffix of the text that starts with a non-space character. |
| Strs.FileNameShape | core/parsers/__init__.py:184 | `fileName()` ends the path, holds no '/', and follows a '/' unless it is the whole path. |
| Strs.CompleteSuffixShape | core/parsers/misc.py:17-19 | `completeSuffix()` is the file name after its first dot. |
| Strs.SuffixParts | core/parser.py:53-55 | `suffix()` ends `completeSuffix()`, and the two coincide when the complete suffix has no dot. |
| Store.LookupAfterWrite | core/data_structure.py:24-31 | After `d[k] = s`, `d[k]` reads `s` and every other key reads what it read before. |
| Store.LookupAfterRemove | core/data_structure.py:24-28 | A removed key reads `""`; the other keys are unaffected. |
| Store.DataDict.constructor | core/data_structure.py:17-19 | A new store is empty and every code reads `""`. |
| Store.DataDict.Set | core/data_structure.py:30-31 | The key reads the new text, every other key is unchanged, and flags and macros are untouched. |
| Store.DataDict.Clear | core/data_structure.py:21-22 | After `clear()` every code reads `""`. |
| Store.DataDict.Update | core/parsers/__init__.py:138 | Codes of the update read their new text; every other code reads as before. |
| Store.DataDict.NewNum | core/parsers/markdown.py:74 | Returns a code with no stored text and reserves it. |
| Store.DataDict.Pop | core/main_window/__init__.py:439 | The code's text, unsaved flag and macro names go, and the code then reads `""`. |
| Store.DataDict.SetSaved | core/main_window/__init__.py:663-667 | `is_saved(k)` afterwards equals the flag given; texts and macros are untouched. |
| Store.DataDict.SaveAll | core/parsers/__init__.py:115 | Every code is saved afterwards. |
| Store.DataDict.AddMacro | core/parsers/__init__.py:148 | Binds the macro name to the code; texts and flags are untouched. |
| Outline.CodesOfInsert | core/main_window/__init__.py:319 | Inserting an item into a sibling list adds exactly its codes. |
| Outline.CodesOfRemove | core/main_window/__init__.py:430 | The codes of the remaining list together with the removed item's codes are the codes of the original list. |
| Outline.RemoveInsert | core/main_window/__init__.py:319 | Inserting an item and removing it again gives the list back. |
| Outline.InsertRemove | core/main_window/__init__.py:457-458 | Taking an item out and inserting it back at the same index restores the list. |
| Outline.SetListAtRead | core/main_window/__init__.py:457-458 | After a sibling list is replaced, its parent path is still valid and reads the new list. |
| Outline.SetListAtTwice | core/main_window/__init__.py:542-543 | Replacing one sibling list twice keeps only the second replacement. |
| Paths.FileSuffixShape | core/parsers/misc.py:17-19 | A file name without a dot has no suffix; otherwise the name is a dot-free base, a dot and the suffix. |
| Paths.NodeGetPath | core/parsers/misc.py:22-31 | A top-level `kmol` item resolves to its directory and any other top-level item to its own path text. |
| Paths.NodeGetPathFold | core/parsers/misc.py:22-31 | The recursion on the parent link equals the top-down fold that joins every path text to the resolved top-level item. |
| Paths.NodeGetPathPrefix | core/parser.py:58-67 | A child resolves to its parent's resolved path joined with its own path text. |
| Paths.GetPath | core/parsers/misc.py:34-40 | `getpath` is the path text of a top-level item, and the absolute form of the resolved path of any other item. |
| Paths.GetPathFold | core/parser.py:70-76 | `getpath` of an item with a parent is the absolute form of the top-down fold. |
| Paths.RulesAgree | core/parser.py:53-67 | The package's complete-suffix rule and the older last-suffix rule resolve every chain alike when the top-level name has at most one dot. |
| Paths.RulesDifferOnDoubleSuffix | core/parsers/misc.py:26-30 | `a.b.kmol` is a project file under the older rule only, so the two versions resolve it differently. |
| Paths.DoubleSuffixComplete | core/parsers/misc.py:17-19 | The complete suffix of `a.b.kmol` is `b.kmol`. |
| Paths.DoubleSuffixLast | core/parser.py:53-55 | The last suffix of `a.b.kmol` is `kmol`. |
| Markdown.UnderlineMeaning | core/parsers/markdown.py:41-46 | A Setext underline is one repeated character of at least three `=` (level 0) or `-` (level 1), under a non-empty line that does not start with a space. |
| Markdown.AtxMeaning | core/parsers/markdown.py:47-50 | A line is an ATX heading of level `l` if and only if it has two distinct characters and, after its leading whitespace, starts with `l + 1` `#` followed by whitespace or the end of the line; a whitespace-only line is none. |
| Markdown.AtxAsWrittenFailsExactly | core/parsers/markdown.py:47-48 | The written test raises exactly on a whitespace-only line with two distinct characters. |
| Markdown.AtxAgrees | core/parsers/markdown.py:47-50 | Wherever the written test does not raise, the corrected test gives the same level. |
| Markdown.AtxAsWrittenFails | core/parsers/markdown.py:47-48 | The line `" \t"` makes the written test raise; the corrected test finds no heading. |
| Markdown.AtxIndented | core/parsers/markdown.py:48-50 | Leading whitespace is skipped: `  ### A` has level 2. |
| Markdown.AtxNeedsSpace | core/parsers/markdown.py:48-49 | `#A` is no heading. |
| Markdown.AtxNeedsTwoCharacters | core/parsers/markdown.py:47 | `###` is no heading. |
| Markdown.Titles | core/parsers/markdown.py:35-51 | The recorded title lines lie within the document and never decrease. |
| Markdown.ScanTitles | core/parsers/markdown.py:32-51 | The scan loop records exactly the titles `Titles` specifies. |
| Markdown.ScanShape | core/parsers/markdown.py:35-51 | After `n` lines the fence flag is the parity of the fence lines and `previous_line` is line `n-1`. |
| Markdown.TitlesIff | core/parsers/markdown.py:35-51 | A title `(j, l)` is recorded if and only if line `j` is an ATX heading of level `l` outside a fence, or is underlined at level `l` by a line outside a fence. |
| Markdown.PrefixTitles | core/parsers/markdown.py:35-51 | After the first `n` lines, a title is recorded if and only if one of the two title rules holds within those lines. |
| Markdown.PrefixTitlesStep | core/parsers/markdown.py:37-51 | Line `k` adds exactly the ATX title on itself and the Setext title on the line before it, and only outside a fence. |
| Markdown.FencedLinesNoTitle | core/parsers/markdown.py:36-40 | No line inside a fenced block, from the opening ``` line up to the closing one, is recorded as a title. |
| Markdown.ClosingFenceUnderlined | core/parsers/markdown.py:36-46 | The closing fence line itself can still become a Setext title. |
| Markdown.RootTextPlain | core/parsers/markdown.py:54-57 | Without titles the parsed item keeps the file text unchanged. |
| Markdown.Partition | core/parsers/markdown.py:58-83 | The text before the first title and the title bodies, in order, make up the document. |
| Markdown.BodiesCover | core/parsers/markdown.py:75-78 | The bodies from title `i` onwards make up the document from title `i`'s line. |
| Markdown.DocShape | core/parsers/markdown.py:75-84 | A fragment starts with its title's line, and is empty exactly when the next title is on the same line and is not deeper. |
| Markdown.DuplicateTitle | core/parsers/markdown.py:41-50 | `# A` underlined by `===` records the same title twice, and its first fragment is empty. |
| Markdown.HeadingNameShape | core/parsers/markdown.py:84-86 | A line without `#` names its item itself; a heading's name is a proper suffix of the line that does not start with whitespace. |
| Markdown.HeadingNameAgrees | core/parsers/markdown.py:85-86 | The written name split fails exactly on a one-word `#` line; elsewhere it agrees with the corrected name. |
| Markdown.HeadingNameAsWrittenFails | core/parsers/markdown.py:85-86 | The heading `# ` is a level-0 title whose written name split raises; the corrected name is empty. |
| Markdown.HeadingNameExample | core/parsers/markdown.py:85-86 | `## Intro` names its item `Intro`. |
| Markdown.ParentBefore | core/parsers/markdown.py:65-70 | The result is the nearest earlier title of a strictly smaller level, or -1 for the parsed item. |
| Markdown.FindParent | core/parsers/markdown.py:65-70 | The backward search returns exactly that parent. |
| Markdown.NestedParents | core/parsers/markdown.py:65-70 | Every title between a title and its parent has that parent or a later title as its own parent. |
| Markdown.ProgressStep | core/parsers/markdown.py:73-89 | Placing the next fragment under a fresh code keeps every placed item's code, text, name and parent, and keeps the codes distinct. |
| Markdown.ParseMarkdown | core/parsers/markdown.py:14-89 | A missing file stores its error text. Otherwise the parsed item keeps the root text, and every title gets a fresh, distinct code holding its fragment, appended in order under its parent; an empty fragment crashes. |
| Markdown.ParseTitle | core/parsers/markdown.py:72-89 | One title: a fresh code holds its fragment and the item is appended under its parent, keeping the loop's invariant. An empty fragment stops the pass with the crash outcome. |
| Serializer.Merge | core/parsers/__init__.py:177-183 | The merge loop computes `Merged`: each `@others` line replaced by the children's texts behind its prefix, joined by blank lines. |
| Serializer.SplicedCons | core/parsers/__init__.py:180-182 | Children's texts come out in order, each behind the prefix, separated by one blank line. |
| Serializer.SplicedNone | core/parsers/__init__.py:182 | Without children an `@others` line becomes `""`. |
| Serializer.MergedPlain | core/parsers/__init__.py:177-183 | Lines without the marker pass through unchanged and are rejoined with `'\n'`. |
| Serializer.MergedOneLine | core/parser.py:128-134 | A one-line text without the marker is returned as it is. |
| Serializer.MergedOthers | core/parsers/markdown.py:58-60 | The root text `@others` merges to the children's texts joined by blank lines. |
| Serializer.WithNewlineShape | core/parsers/__init__.py:199-201 | A non-empty text gets a final `'\n'` only when it lacks one, the text is kept as a prefix, and the step is idempotent. |
| Serializer.SaveKids | core/parsers/__init__.py:173-176 | There is one returned text per child. |
| Serializer.SaveFile | core/parsers/__init__.py:169-212 | The recursion returns the text, saved flag and writes `Save` specifies, and leaves the texts and macros unchanged. |
| Serializer.SaveChildren | core/parsers/__init__.py:173-176 | The loop over the children accumulates their texts in order, the AND of their flags and their writes. |
| Serializer.FinishSave | core/parsers/__init__.py:177-212 | Covers the item's own part: the merge, then no write when the file name is empty or everything is saved. A `kmol` item delegates to the codec; a supported suffix gets a directory if missing and a newline-terminated text write. |
| Serializer.WriteFile | core/parsers/__init__.py:185-210 | The writes of an item with a file name and something unsaved. A `kmol` item writes its project document, which marks everything saved. Otherwise a missing directory is created, and a supported suffix gets a newline-terminated text write. |
| Serializer.SavedSubtree | core/parsers/__init__.py:184-185 | A subtree with no unsaved code writes nothing, reports saved, and returns the flattened text. |
| Serializer.SavedIff | core/parsers/__init__.py:171-176 | Without project files a subtree reports saved if and only if none of its codes is unsaved, and the flags do not change. |
| Serializer.WrittenTextsEndInNewline | core/parsers/__init__.py:198-204 | Every non-empty text written ends in a newline. |
| Serializer.WrittenEndsInNewline | core/parsers/__init__.py:200-202 | After children's writes that end in a newline, the item's own text write does too, unless it is empty. |
| Serializer.ProjectSave | core/parsers/__init__.py:187-189 | An unsaved project item writes its document last and leaves nothing unsaved. |
| Codec.DescribeAll | core/parsers/__init__.py:107-109 | There is one record per top-level child. |
| Codec.AddNode | core/parsers/__init__.py:87-102 | Returns the record `Describe` specifies and appends the codes `Embedded` specifies. |
| Codec.AddNodes | core/parsers/__init__.py:100-101 | The loop over the children returns their records and embedded codes in order. |
| Codec.DataOf | core/parsers/__init__.py:111-113 | The embedded map holds exactly the given codes, each with its stored text (`""` when absent). |
| Codec.WriteTree | core/parsers/__init__.py:82-115 | `_write_tree` returns the document `ProjectOf` specifies, keeps texts and macros, and marks every code saved. |
| Codec.ReadData | core/parsers/__init__.py:111-113 | The data dictionary holds the project item's text and the stored text of every embedded code, and nothing else. |
| Codec.EmbeddedFromDocument | core/parsers/__init__.py:95-99 | The embedded codes are exactly those of the written records whose path has no supported suffix. |
| Codec.ProjectData | core/parsers/__init__.py:104-113 | The document embeds the project item's text and that of every code `add_node` collected, and nothing else. |
| Codec.YamlRestoresRoot | core/parsers/__init__.py:111-138 | Reading a written document back restores the project item's text and every embedded text. |
| Codec.RebuildDescribe | core/parsers/__init__.py:97-99 | Rebuilding the written records gives back the tree, minus the children of file-backed items. |
| Codec.PruneNothing | core/parsers/__init__.py:97-99 | Without file-backed items the rebuild gives the tree back unchanged. |
| Codec.AddMacrosFlat | core/parsers/__init__.py:146-148 | The recursive registration binds the `@` names of the records in preorder. |
| Codec.BindAllUntouched | core/parsers/__init__.py:146-148 | A name no `@` record carries keeps its binding. |
| Codec.BindAllLast | core/parsers/__init__.py:146-148 | A name several `@` records carry ends bound to the code of the last one. |
| Codec.QueueSound | core/parsers/__init__.py:149-151 | Every parse-list entry addresses a rebuilt item whose path has a suffix. |
| Codec.AddDescNode | core/parsers/__init__.py:140-157 | Rebuilds the item, queues the suffixed items below it, and registers its macros; texts and flags are untouched. |
| Codec.AddDescNodes | core/parsers/__init__.py:159-161 | The loop over the records rebuilds them in order and queues their suffixed items in order. |
| XmlCodec.XAddNode | core/parser.py:89-101 | Returns the element `ToElem` specifies and collects the codes `XCodes` specifies. |
| XmlCodec.XAddNodes | core/parser.py:103-104 | The loop over the children returns their elements and codes. |
| XmlCodec.CollectEntries | core/parser.py:105-110 | The `data` entries are exactly the stored texts of collected codes. |
| XmlCodec.XWriteTree | core/parser.py:79-111 | `_write_tree` returns the document `XmlOf` specifies, keeps texts and macros, and marks every code saved. |
| XmlCodec.XCodesWithin | core/parser.py:96-99 | Only codes of the project item's descendants are collected. |
| XmlCodec.WrittenEntries | core/parser.py:99-110 | The last element holds exactly the stored texts of collected codes; the project item's text is absent unless a descendant shares its code. |
| XmlCodec.XReadNode | core/parser.py:166-181 | Rebuilds the item, sets its codes' texts to `""`, and registers its macros. A suffixed item is queued and its children are not read. |
| XmlCodec.XReadNodes | core/parser.py:179-181 | Only `node` children are read, in order. |
| XmlCodec.XReadRoot | core/parser.py:159-189 | Sets the project code to `""`, then stores `data-structure` entries and rebuilds `node` elements in document order. |
| XmlCodec.XReadChild | core/parser.py:183-189 | One child of the root: a `data-structure` element adds its texts, a `node` element is rebuilt and appended, and anything else is skipped. The rebuilt items, parse list, texts and macros then describe one more child. |
| XmlCodec.ReadBack | core/parser.py:89-101 | Reading written elements gives the records back when nothing lies below a suffixed record. |
| XmlCodec.ReadDropsBelowQueued | core/parser.py:176-181 | A suffixed record written with records below it comes back without them. |
| XmlCodec.XmlTextsAfterLoad | core/parser.py:105-110 | After a written file is read back, every embedded text is restored and the project item's own text is `""`. |
| Loader.ParseText | core/parser.py:222-236 | Stores the file's text, or the error message when the file is missing. |
| Loader.ResolvedByChain | core/parsers/misc.py:22-40 | The file opened and the item's own resolved path agree with `getpath` and `node_getpath` on the chain. |
| Loader.QueueValid | core/parsers/__init__.py:149-151 | Every parse-list entry addresses a rebuilt item. |
| Loader.ParseQueue | core/parsers/__init__.py:163-164 | After the queued parses the project keeps its top-level names and paths, every item away from the parse list is as rebuilt, and every entry that is not detached and not replaced later holds its parse's result. Each entry is parsed under the parent `EntryParent` gives: below the project item, or, when detached, below the direct child of the deepest earlier entry above it. The result keeps the entry's name and path, its code unless it is a project file, and has no children for a text file. |
| Loader.ParseEntry | core/parsers/__init__.py:163-164 | Parsing one queued item under its `EntryParent` keeps the top-level names and paths, keeps every item away from the rest of the parse list as rebuilt, places the result at the entry unless it is detached, keeps the earlier placed results, and leaves the later queued items reachable. |
| Loader.GraftStep | core/parsers/__init__.py:163-164 | Replacing an entry that is not below an earlier one keeps the untouched items and the later entries valid. |
| Loader.ParseTreeYaml | core/parsers/__init__.py:127-166 | A missing file changes nothing. Otherwise the item takes the document's code, its children are the rebuilt items with the parse results placed as `ParseQueue` states, and everything is saved. |
| Loader.ParseTreeXml | core/parser.py:157-194 | A missing file is an error. Otherwise the item takes the document's code, its children are the rebuilt items with the parse results placed as `ParseQueue` states, and everything is saved. |
| Loader.Parse | core/parsers/__init__.py:215-244 | Children are discarded, the code is reused or freshly allocated, and the suffix picks the Markdown outliner, the project reader or a text load. |
| Loader.LeafAt | core/parser.py:176-181 | In a tree read from XML a queued item has no children. |
| Loader.XmlNeverDetached | core/parser.py:176-181 | The XML reader never queues an item below another queued one. |
| Loader.MdQueued | core/parsers/__init__.py:149-151 | A Markdown file name has a suffix, so the YAML reader queues it. |
| Loader.QueueNested | core/parsers/__init__.py:149-156 | A queued record with a queued record below gives two nested entries. |
| Loader.YamlDetaches | core/parsers/__init__.py:149-164 | The YAML reader can queue an item below a queued one, whose entry is then detached. |
| Loader.DirectChildRoot | core/parsers/misc.py:34-40 | A detached entry that is a direct child of the earlier entry above it is parsed without a parent, so `getpath` is its raw path text. |
| Loader.GrandchildUnderChild | core/parsers/misc.py:34-40 | A detached entry two levels below the earlier entry keeps the child between them as its parent: `b.txt` under `sub` under `a.md` is read from the absolute join of `sub` and `b.txt`. |
| MainWindow.GetRoot | core/main_window/__init__.py:62-65 | Following parents ends at a top-level address that is a prefix of the item's. |
| MainWindow.GetRootItem | core/main_window/__init__.py:62-65 | The root of an item is the top-level tree it lies in. |
| MainWindow.StrBetweenFound | core/main_window/__init__.py:74-76 | With both characters present and `front` first, the result is the text strictly between the first `front` and the first `back`. |
| MainWindow.StrBetweenNoFront | core/main_window/__init__.py:74-76 | Without `front` the result is the text before the first `back`. |
| MainWindow.StrBetweenBackFirst | core/main_window/__init__.py:74-76 | A `back` before the first `front` gives `""`. |
| MainWindow.StrBetweenNoBack | core/main_window/__init__.py:74-76 | Without `back`, `find` gives -1 and the slice stops before the last character. |
| MainWindow.MovedUpSwaps | core/main_window/__init__.py:454-465 | Moving up swaps the item with the one before it; no other sibling moves. |
| MainWindow.MovedDownSwaps | core/main_window/__init__.py:481-492 | Moving down swaps the item with the one after it; no other sibling moves. |
| MainWindow.MoveUpDown | core/main_window/__init__.py:444-492 | Moving down undoes moving up, and moving up undoes moving down. |
| MainWindow.MovedRightShape | core/main_window/__init__.py:508-519 | The previous sibling gains the item as its last child; the other siblings keep their order. |
| MainWindow.MovedLeftShape | core/main_window/__init__.py:532-543 | The old parent loses the child, which follows the parent among the grandparent's children. |
| MainWindow.RightThenLeft | core/main_window/__init__.py:498-543 | A move left undoes a move right. |
| MainWindow.LeftThenRight | core/main_window/__init__.py:498-543 | A move right undoes a move left of a last child. |
| MainWindow.MoveUpDownKeepCodes | core/main_window/__init__.py:444-492 | Moving up or down neither loses nor adds a code. |
| MainWindow.MoveRightKeepsCodes | core/main_window/__init__.py:498-519 | Moving right neither loses nor adds a code. |
| MainWindow.MoveLeftKeepsCodes | core/main_window/__init__.py:525-543 | Moving left neither loses nor adds a code. |
| MainWindow.PreorderCodes | core/main_window/__init__.py:371-378 | The preorder visit of `new_pointer` lists exactly the codes of the tree. |
| MainWindow.CopiedTexts | core/main_window/__init__.py:371-378 | Every fresh code of a copy holds the text of the code it copies, and stored codes keep their texts. |
| MainWindow.CopiedTextsHeld | core/main_window/__init__.py:371-378 | When the originals are stored, each copy holds its original's stored text under a different code. |
| MainWindow.Unbound | core/main_window/__init__.py:432-441 | A name stays bound exactly when its code was not deleted. |
| MainWindow.AddAsWrittenRaises | core/main_window/__init__.py:320-324 | `add_node` on a top-level item with no children and no path raises. |
| MainWindow.AddAsWrittenAgrees | core/main_window/__init__.py:306-324 | The written code raises exactly in that case; elsewhere it agrees with the intended insertion. |
| MainWindow.AddedPlacesItem | core/main_window/__init__.py:306-324 | The new item lands as the last child, or as the next sibling of a childless item without a path. The current item stays valid, and the codes grow by the new code. |
| MainWindow.AddedAsChild | core/main_window/__init__.py:314-315 | A new item appended to the children of the item at `a` sits right after the last child, and adds exactly its own code. |
| MainWindow.Siblings | core/main_window/__init__.py:453-462 | The sibling list of an item is its parent's children, or the top-level list, and holds the item at its index. |
| MainWindow.InsertedAfter | core/main_window/__init__.py:353 | `insertChild(indexOfChild(node) + 1, x)` keeps the item in place, puts `x` right after it, and adds exactly `x`'s codes. |
| MainWindow.Window.constructor | core/main_window/__init__.py:83 | A window over a tree, with no current item. |
| MainWindow.Window.RootUnsaved | core/main_window/__init__.py:663-667 | The top-level item above the current item is marked unsaved, and nothing else in the store changes; without a current item nothing changes. |
| MainWindow.Window.MoveUpNode | core/main_window/__init__.py:444-468 | No-op without a current item or at index 0; otherwise the sibling list becomes `MovedUp`, the current item follows the node, and the top-level item it now lies in is marked unsaved; the texts and macros are untouched. |
| MainWindow.Window.MoveDownNode | core/main_window/__init__.py:471-495 | No-op at the last index; otherwise the sibling list becomes `MovedDown`, the current item follows the node, and the top-level item it now lies in is marked unsaved; the texts and macros are untouched. |
| MainWindow.Window.MoveRightNode | core/main_window/__init__.py:498-522 | No-op at index 0; otherwise the node becomes the last child of its previous sibling and stays current, and the top-level item it now lies in is marked unsaved; the texts and macros are untouched. |
| MainWindow.Window.MoveLeftNode | core/main_window/__init__.py:525-545 | No-op without a parent or grandparent; otherwise the node follows its old parent in the grandparent and stays current, and the top-level item it now lies in is marked unsaved; the texts and macros are untouched. |
| MainWindow.Window.AddNode | core/main_window/__init__.py:306-324 | Reserves a fresh code first. With a current item, a `New node` item under that code is placed as `Added` says, and the codes grow by it. |
| MainWindow.Window.CopyNode | core/main_window/__init__.py:344-353 | A childless copy under a fresh code holding the same text goes right after the item; a top-level item raises after the code is written. |
| MainWindow.Window.CloneNode | core/main_window/__init__.py:356-362 | A childless copy with the same code goes right after the item; the set of codes is unchanged. |
| MainWindow.Window.NewPointer | core/main_window/__init__.py:371-378 | The copy has the original's shape, every item gets a distinct fresh code, and each fresh code holds its original's text. |
| MainWindow.Window.CopyNodeRecursive | core/main_window/__init__.py:365-380 | A same-shaped copy with fresh codes holding the originals' texts goes right after the item; the original is unchanged. |
| MainWindow.Window.CloneNodeRecursive | core/main_window/__init__.py:383-387 | The subtree itself, with every code shared, goes right after the item; the set of codes is unchanged. |
| MainWindow.Window.DeleteNodeData | core/main_window/__init__.py:432-441 | Pops the code of the item and of every item below it: texts, flags and macro names. |
| MainWindow.Window.DeleteNode | core/main_window/__init__.py:418-430 | Without a current item or for a top-level item nothing happens. Otherwise the item leaves its parent's list, the parent becomes current, and every code of the subtree reads `""`. |

## Left out

- The GUI side of the core files is not modelled:
  - icons (`setIcon`);
  - `print` messages;
  - window titles and the unsaved star (`set_not_saved_title`);
  - the macro toolbar actions that `__delete_node_data` removes (the model drops the macro names through `pop`).
- Real file I/O is not modelled: YAML and XML text, the version header, `open`/`write`, `mkpath`, `QFileInfo.isFile` and the text of `FileNotFoundError`. They are inputs (`Loader.Env`, `Paths.PathOps`) and returned actions (`Serializer.Action`).
- A `UnicodeError` while writing is not modelled, because encoding is outside the model.
- The source of `new_num`, `is_saved`, `set_saved`, `save_all`, `add_macro`, `macros`, `pop` and `update` is not part of this model. They are modelled by what their callers rely on.
- Store.DataDict.NewNum: chooses a code larger than every stored one; the real choice of code is not known.
- Loader.Parse: nested project files are followed to a depth of `fuel`; deeper nesting reports failure.
- Loader.ParseQueue: states the name, path, code and text-file children of each parse result, not the Markdown items or nested project items below a result, nor the store's texts after the queued parses.
- Loader.ParseTreeYaml: states the code, the children as `ParseQueue` states them and the saved flags, not the texts after the queued parses.
- Loader.ParseTreeXml: states the code, the children as `ParseQueue` states them and the saved flags, not the texts after the queued parses.
- Markdown.ParseMarkdown: follows the corrected heading test and name (see Findings). Where the source raises `IndexError` the model parses on: on a line such as `" \t"` outside a fence (core/parsers/markdown.py:48), and on a title with nothing after its first word, such as `# ` or `#foo` underlined by `===` (core/parsers/markdown.py:86).
- Markdown.ParseTitle: takes the corrected name of the same titles; the source raises `IndexError` there (core/parsers/markdown.py:86).
- Loader.Parse: a Markdown file goes through `Markdown.ParseMarkdown` and so parses on where the source raises `IndexError` on those lines.
- Tree items are values. Qt's `clone()` and shared item objects are not modelled, and neither are aliasing between windows or a drag and drop.
- MainWindow.Window.CopyNode, CopyNodeRecursive, CloneNode and CloneNodeRecursive: called without a current item, the source raises `AttributeError`; the model returns `ok` false with nothing changed.
- MainWindow.Window.AddNode: follows the intended top-level insertion (see Findings); the code as written is `MainWindow.AddedAsWritten`.
- MainWindow.CopiedTexts: a copied code absent from the store and equal to one of the fresh codes would read the fresh code's text. The lemma states the texts only when the copied and fresh codes are disjoint, which `CopiedTextsHeld` establishes for codes held by the store.
- The other window actions are not modelled (`set_path`, `open_path`, `save_proj`, find and replace, script execution), because they are GUI or thread code.

## Findings

| source | as written | input that shows it | evidently intended | confidence | as-written member | corrected member |
|---|---|---|---|---|---|---|
| core/parsers/markdown.py:47-48 | `line.split(maxsplit=1)[0]` on any line with two distinct characters | the line `" \t"` (space, tab): `split` yields `[]` and indexing raises `IndexError` | a whitespace-only line is not a heading | not executed | Markdown.AtxAsWrittenFails | Markdown.AtxAgrees |
| core/parsers/markdown.py:85-86 | `title.split(maxsplit=1)[1]` on every heading line | the heading `# ` (hash, space) is a level-0 title, but its split has one part and `[1]` raises `IndexError` | a heading without text gets the empty name | not executed | Markdown.HeadingNameAsWrittenFails | Markdown.HeadingNameShape |
| core/main_window/__init__.py:320-324 | `self.tree_main.indexOfTopLevelItem(index + 1, new_node)` for a top-level item | `add_node` on a top-level item with no children and an empty path: `indexOfTopLevelItem` takes one argument and raises `TypeError` | `insertTopLevelItem(index + 1, new_node)`, as `move_up_node` does | not executed | MainWindow.AddAsWrittenRaises | MainWindow.AddedPlacesItem |
