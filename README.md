# ragit markdown structure and PDF artifact paths, in Dafny

This project models three pieces of the ragit ingestion pipeline and proves
properties of them.

- **The markdown structure builder** (`markdown_parser.py`). Every line is
  stripped and classified as a `#`, `##` or `###` heading, a table row
  (`|...|`) or text. The line is then placed in a tree. The cursor (the
  root's `_tail`) walks up the parent links until a node accepts the new
  node. A table or text block that accepts it absorbs the line. Any other
  acceptor gets the node as its last child, and that child becomes the
  cursor. Read-only views: the pre-order node list (`get_nodes`), the
  blocks of a document (`iter_markdown`), a node's header path
  (`headers_path`, joined with `" => "`) and a block's text.
  A stripped blank line is empty text: it merges into the cursor when that
  is a text block, and otherwise starts a new text block. A table or text
  block just created becomes the cursor, so the next heading walks up from
  it. A stripped heading line always has text after its marker, so no line
  can make a heading with an empty caption.
- **The earlier headings-only builder** (`markdown_parser_new.py`). It uses
  the same walk-up algorithm, restricted to the three heading levels, and
  adds the depth-indented dump (`to_lines`/`to_str`, one `"---- "` per level).
- **The synthetic-artifact path conventions** (`pdf_preprocessor.py`).
  A PDF `base/C/documents/.../N.pdf` has its page images under
  `base/C/synthetic/images/documents/.../N/N_k.png`. The markdown made from
  each image goes under `.../markdowns/...` as `N_k.md`. The model covers
  `_get_synthetic_dir`, `_make_markdown_path` and `get_pdf_from_markdown`
  (which maps a markdown back to its PDF and page). It also covers
  `_extract_markdown`, which takes the fenced markdown out of a model's
  answer.

Files:
- `strings.dfy`: Python `str` operations (`strip`, `split`, `join`, `find`, `int()`, `str()` of a number).
- `tree_arena.dfy`: an ordered tree kept as an arena of parent/children indices, with its pre-order.
- `markers.dfy`: the heading markers.
- `markdown_parser.dfy`, `heading_parser.dfy`, `pdf_paths.dfy`: the three components.

Both builders keep their object graph as an arena. `links[i]` holds the
parent index and the ordered child indices of node `i`. A parallel sequence
holds each node's payload, and slot 0 is the root. The invariant `WellFormed`
holds for every document the builders can reach. It says that creation order
is pre-order and that the chain of ancestors of the newest node is the right
spine of the tree. The classes `MarkdownTree` and `HeadingTree` hold these
sequences and the cursor as fields; their invariant `Valid` adds that the
cursor is the newest node. Their `Add` methods update the fields in place and
are proved equal to the functional `Inserted`, about which the lemmas are
stated.

Python exceptions become the `Failure` values `ValueError`, `IndexError`,
`AssertionError` and `FileNotFound` inside a `Result`. The
`node_factory` assertion becomes `None`. The shared directory
(`common.get_shared_directory()`) is the parameter `base`; the path
lemmas take it written without a trailing `/` (`BaseDir`). Whether the PDF
file exists (`os.path.isfile`) is the parameter `isFile`.

## Model

| member | source | states |
|---|---|---|
| `MarkdownParser.MakeNode` | ragit/libs/impl/markdown_parser.py:60-79 | a heading's caption is the stripped line after its marker, and a block holds the stripped line; a heading never gets an empty caption, so the constructor's assertion cannot fire |
| `MarkdownParser.MakeNodeKind` | ragit/libs/impl/markdown_parser.py:69-79 | each kind is produced exactly when its test is the first one the stripped line passes: `# `, `## `, `### `, then `\|...\|`, else text (the empty line included) |
| `HeadingMarkers.MarkersExclusive` | ragit/libs/impl/markdown_parser.py:70-75 | a stripped line starts with at most one heading marker, never with both a marker and `\|`, and a line holding a marker has text after it |
| `MarkdownParser.CanAdd` | ragit/libs/impl/markdown_parser.py:96-147 | root, H1, H2 and H3 accept exactly the nodes of a deeper rank; Table accepts only Table, Text only Text; nothing accepts the root |
| `MarkdownParser.Merge` | ragit/libs/impl/markdown_parser.py:126-128 | merging keeps the block kind and appends the other block's lines |
| `MarkdownParser.Empty` | ragit/libs/impl/markdown_parser.py:17-22 | a fresh root is a well-formed document with one node |
| `MarkdownParser.Acceptor` | ragit/libs/impl/markdown_parser.py:81-94 | the walk from the cursor ends at an ancestor-or-self that accepts the node; it ends at the cursor itself when the cursor accepts |
| `MarkdownParser.AcceptorNearest` | ragit/libs/impl/markdown_parser.py:91-94 | no node passed on the walk before the acceptor accepts the node |
| `MarkdownParser.Climb` | ragit/libs/impl/markdown_parser.py:91-94 | the loop that pops the cursor up to its parent stops at exactly the acceptor |
| `MarkdownParser.InsertedWellFormed` | ragit/libs/impl/markdown_parser.py:81-94 | adding a line keeps every invariant: each child is accepted by its parent, blocks have no children, no two neighbouring siblings are blocks of one kind, pre-order is creation order |
| `MarkdownParser.InsertedCases` | ragit/libs/impl/markdown_parser.py:82-90 | a block that accepts the line is the cursor and absorbs it, with the tree links unchanged; any other acceptor gets the node appended as its last child |
| `MarkdownParser.AcceptorBlockIsLast` | ragit/libs/impl/markdown_parser.py:82-86 | only the cursor can be the block that absorbs a line, since blocks are never parents |
| `MarkdownParser.InsertedMerges` | ragit/libs/impl/markdown_parser.py:82-90 | a line is merged, with no node created, exactly when the cursor is a block of the line's kind; otherwise its node is the new last node |
| `MarkdownParser.InterruptedTable` | ragit/libs/impl/markdown_parser.py:82-90 | a table row, a text line and another table row give a table, then a text block and a second table |
| `MarkdownParser.InsertedExtends` | ragit/libs/impl/markdown_parser.py:86-89 | adding a line never removes, moves or re-parents a node; child lists only grow at the end; a node changes only by a block gaining lines |
| `MarkdownParser.BuildExtendsStep` | ragit/libs/impl/markdown_parser.py:4-8 | the document of a longer input extends the document of its prefix |
| `MarkdownParser.Build` | ragit/libs/impl/markdown_parser.py:4-8 | the document built from any sequence of lines, blank ones included, is well formed |
| `MarkdownParser.BuildWeight` | ragit/libs/impl/markdown_parser.py:56-58 | the number of headings plus the lines held by blocks equals the number of lines added |
| `MarkdownParser.GetNodes` | ragit/libs/impl/markdown_parser.py:47-54 | the pre-order walk lists every node exactly once, in the order the nodes were created |
| `MarkdownParser.HeaderCaptionsDepth` | ragit/libs/impl/markdown_parser.py:36-42 | a header path has one non-empty caption per level between the node and the root, at most the node's heading level |
| `MarkdownParser.HeadersPathStep` | ragit/libs/impl/markdown_parser.py:33-42 | a heading's path is its parent's path, `" => "`, then its own caption; under the root it is its caption alone |
| `MarkdownParser.HeadersPathEmpty` | ragit/libs/impl/markdown_parser.py:33-42 | a header path is empty exactly for the root |
| `MarkdownParser.GetHeadersEmpty` | ragit/libs/impl/markdown_parser.py:120-124 | a block's headers are `""` exactly when it sits directly under the root, and hold at most three captions |
| `MarkdownParser.InnerTextMerge` | ragit/libs/impl/markdown_parser.py:126-131 | the text of a merged block is the two texts joined by a newline |
| `MarkdownParser.InnerTextSplit` | ragit/libs/impl/markdown_parser.py:130-131 | splitting a block's text at newlines gives its lines back |
| `MarkdownParser.MarkdownTree.constructor` | ragit/libs/impl/markdown_parser.py:17-22 | a new root holds the empty document and is its own cursor |
| `MarkdownParser.MarkdownTree.Add` | ragit/libs/impl/markdown_parser.py:56-94 | `add` updates the fields in place to the inserted document and leaves the cursor on the node that took the line |
| `MarkdownParser.AddAll` | ragit/libs/impl/markdown_parser.py:5-8 | feeding the lines one by one to a fresh root gives the built document |
| `MarkdownParser.Blocks` | ragit/libs/impl/markdown_parser.py:9-11 | the filter yields every table and text block once, in increasing (pre-order) position, and nothing else |
| `MarkdownParser.IterMarkdown` | ragit/libs/impl/markdown_parser.py:4-11 | `iter_markdown` over lines yields the blocks of the built document in document order |
| `HeadingParser.NodeFactory` | ragit/libs/impl/markdown_parser_new.py:7-22 | the factory only produces non-root headings with non-empty captions |
| `HeadingParser.NodeFactoryKind` | ragit/libs/impl/markdown_parser_new.py:15-22 | each level is produced exactly when its marker is the first the stripped line starts with, with the rest of the line as caption; any other line is refused |
| `HeadingParser.CanAdd` | ragit/libs/impl/markdown_parser_new.py:68-84 | a node accepts exactly the headings of a greater level: root any, H1 H2/H3, H2 H3, H3 none |
| `HeadingParser.NewDoc` | ragit/libs/impl/markdown_parser_new.py:26-31 | a root is refused exactly when its caption is empty; otherwise it is a one-node well-formed tree |
| `HeadingParser.Acceptor` | ragit/libs/impl/markdown_parser_new.py:58-66 | the walk from the cursor ends at an ancestor-or-self that accepts the heading |
| `HeadingParser.AcceptorNearest` | ragit/libs/impl/markdown_parser_new.py:63-66 | every node passed on the walk before the acceptor has a level at least that of the heading |
| `HeadingParser.Climb` | ragit/libs/impl/markdown_parser_new.py:63-66 | the popping loop stops at exactly the acceptor |
| `HeadingParser.Added` | ragit/libs/impl/markdown_parser_new.py:54-56 | `add` fails exactly on a non-heading line; otherwise the tree stays well formed and gains one node |
| `HeadingParser.Build` | ragit/libs/impl/markdown_parser_new.py:54-56 | a run of adds yields a well-formed tree with one node per line |
| `HeadingParser.BuildSome` | ragit/libs/impl/markdown_parser_new.py:22 | a run of adds succeeds exactly when every line is a heading line |
| `HeadingParser.InsertedWellFormed` | ragit/libs/impl/markdown_parser_new.py:58-84 | adding a heading keeps every child strictly deeper than its parent and pre-order equal to insertion order |
| `HeadingParser.InsertedPlacement` | ragit/libs/impl/markdown_parser_new.py:58-62 | the heading is appended as the last child of an ancestor-or-self of the cursor with a lower level; nothing else changes |
| `HeadingParser.PlacedUnderCursor` | ragit/libs/impl/markdown_parser_new.py:59-62 | a heading deeper than the cursor becomes the cursor's child |
| `HeadingParser.PlacedBesideCursor` | ragit/libs/impl/tests/test_markdown_parser_new.py:42-77 | a heading of the cursor's own level becomes its sibling |
| `HeadingParser.H1UnderRoot` | ragit/libs/impl/markdown_parser_new.py:68-74 | a `#` heading always attaches to the root |
| `HeadingParser.TwoH1` | ragit/libs/impl/tests/test_markdown_parser_new.py:24-39 | two `#` lines give two root children, and the dump is the root's caption and both captions one level deep |
| `HeadingParser.ToLinesRoot` | ragit/libs/impl/markdown_parser_new.py:46-52 | the dump has one line per node in pre-order, each prefixed by `"---- "` once per level of depth |
| `HeadingParser.DepthLevel` | ragit/libs/impl/markdown_parser_new.py:68-84 | a node's depth is at most its level, so a dump line is indented at most three times |
| `HeadingParser.ToStrSingle` | ragit/libs/impl/tests/test_markdown_parser_new.py:17-21 | a lone root dumps as its caption |
| `HeadingParser.BuildLines` | ragit/libs/impl/markdown_parser_new.py:46-52 | the dump has one line for the root plus one per heading added |
| `HeadingParser.HeadingTree.New` | ragit/libs/impl/markdown_parser_new.py:26-31 | constructing a root fails exactly on an empty caption |
| `HeadingParser.HeadingTree.Add` | ragit/libs/impl/markdown_parser_new.py:54-66 | `add` updates the fields in place as `Added` does, or refuses a non-heading line and changes nothing |
| `PdfPaths.SyntheticDir` | ragit/libs/impl/pdf_preprocessor.py:394-444 | a missing file raises FileNotFoundError; otherwise ValueError exactly when the path does not end in `.pdf` or is not under the base |
| `PdfPaths.SyntheticDirUnder` | ragit/libs/impl/pdf_preprocessor.py:420-444 | `base/C/rest.pdf` maps to `base/C/synthetic/{images,markdowns}/rest` |
| `PdfPaths.PdfSyntheticDir` | ragit/libs/impl/pdf_preprocessor.py:307-332 | the images and markdowns directories of `base/C/documents/mid/N.pdf` |
| `PdfPaths.MarkdownPath` | ragit/libs/impl/pdf_preprocessor.py:359-384 | a non-`.png` path is refused with ValueError, and so is a `.png` path not under the base (at least four characters longer than the base); only an image under the base can succeed; every error is ValueError or IndexError |
| `PdfPaths.MarkdownPathUnder` | ragit/libs/impl/pdf_preprocessor.py:372-384 | with `images` third after the base, `.png` becomes `.md` and `images` becomes `markdowns`, all else unchanged; another third component gives ValueError, too few give IndexError |
| `PdfPaths.MarkdownPathSlashedBase` | ragit/libs/impl/pdf_preprocessor.py:378 | for a base written with a trailing `/`, the markdown of `b/C/x/images/.../stem.png` comes out under `b/` followed by `C` without its first letter |
| `PdfPaths.MakeMarkdownPath` | ragit/libs/impl/pdf_preprocessor.py:359-384 | the version that overwrites the third token in place computes `MarkdownPath` |
| `PdfPaths.PageImageUnder` | ragit/libs/impl/pdf_preprocessor.py:87-91 | the markdown of the image of page `k` of `N.pdf` is `base/C/synthetic/markdowns/documents/mid/N/N_k.md` |
| `PdfPaths.PdfOfMarkdownBy` | ragit/libs/impl/pdf_preprocessor.py:209-214 | a path that does not end in `.md`, or is not under the base, is refused with ValueError before anything else is looked at |
| `PdfPaths.PdfOfMarkdownRefused` | ragit/libs/impl/pdf_preprocessor.py:219-259 | no `_` in the stem fails an assertion; a non-numeric page, a parent directory other than the stem's first piece, or anything but `synthetic/markdowns/documents` after the collection gives ValueError; a file directly under the base gives IndexError; nothing between `documents` and the file fails the final assertion |
| `PdfPaths.PdfOfPageMarkdown` | ragit/libs/impl/pdf_preprocessor.py:240-263 | the markdown of page `k` of `base/C/documents/mid/N.pdf` maps back to that PDF and `k` when `N` has no `_`, and for every `N` with the corrected check |
| `PdfPaths.PageRoundTrip` | ragit/libs/impl/pdf_preprocessor.py:194-263 | PDF to images directory to page image to markdown (in the PDF's markdowns directory) and back gives the PDF and the page |
| `PdfPaths.PdfOfPageMarkdownUnderscore` | ragit/libs/impl/pdf_preprocessor.py:232-238 | as written, the page markdown of a PDF whose name holds `_` is refused with ValueError |
| `PdfPaths.PageRoundTripUnderscore` | ragit/libs/impl/pdf_preprocessor.py:232-238 | as written, the round trip breaks for every such PDF, although the markdown path itself is produced |
| `PdfPaths.GetPdfFromMarkdown` | ragit/libs/impl/pdf_preprocessor.py:206-219 | the step-by-step method computes `PdfOfMarkdown` |
| `PdfPaths.PopFile` | ragit/libs/impl/pdf_preprocessor.py:220-238 | popping and checking the file name computes the stem checks of `PdfOfTokens` |
| `PdfPaths.PopDirs` | ragit/libs/impl/pdf_preprocessor.py:240-263 | popping the collection, `synthetic`, `markdowns` and `documents` computes `PdfOfDirs` |
| `PdfPaths.ExtractMarkdownNoFence` | ragit/libs/impl/pdf_preprocessor.py:351-356 | without a `` ```markdown `` closed by a later ```` ``` ````, the answer is returned whole |
| `PdfPaths.ExtractMarkdownFenced` | ragit/libs/impl/pdf_preprocessor.py:351-354 | with one, the result is the stripped text between the first opening and the next closing, at least 14 characters shorter |
| `PdfPaths.ExtractMarkdownNoBacktick` | ragit/libs/impl/tests/test_pdf_preprocessor.py:109-121 | a text without backticks, such as a `'''markdown` fence, is returned whole |

## Left out

- Reading the file in `iter_markdown` (markdown_parser.py:6-8): the input is a sequence of lines. A line keeps its newline or loses it; `strip` removes it either way.
- The root is a flag (slot 0), not a caption. In `markdown_parser.py` a heading captioned `__markdown__root__` would be taken for the root by `set_tail` (:24-29). In `markdown_parser_new.py` the root must be captioned `root` (:34). A root with any other caption fails on its first `add`, and a heading captioned `root` takes the cursor. The model does not reproduce either divergence.
- `HeadingParser.NewDoc`: does not model the crash of a root not captioned `root` on its first `add` (see above).
- The `to_lines` dump of tables and text blocks expected by test_node_4 and test_node_5 (tests/test_markdown_parser_new.py:80-154). `markdown_parser_new.py` refuses those lines, and `markdown_parser.py` has no dump. Their tree shapes are covered by `InsertedMerges` and `InterruptedTable`.
- `_extract_markdown` uses a regular expression (`pdf_preprocessor.py:351`). It is modelled as a plain search for the first `` ```markdown `` and the first ```` ``` ```` after it, followed by `strip`. Regex `\s` and `str.isspace` are taken to agree.
- `int()` on the page suffix is modelled on ASCII: optional whitespace, an optional sign, then decimal digits. Python also accepts non-ASCII decimal digits. It also accepts underscores between digits, but the suffix cannot hold one.
- `isinstance(..., str)` checks, and the TypeError that `os.path.isfile(None)` raises (pdf_preprocessor.py:206, 407-411). Arguments are typed as strings. File existence is the parameter `isFile`.
- The rest of pdf_preprocessor.py is I/O or external calls, so it is not modelled:
  - the directory walks `get_pdf_missing_images` and `get_images_with_missing_markdowns`;
  - rasterising and writing page images, `rmtree` and `mkdir` in `create_images_for_pdf`; only its file naming at :87-91 is modelled (`PageImage`);
  - `create_markdowns_for_pdf`;
  - the HTTP call, base64 encoding and file write in `create_markdown_from_image`, and the prompt text;
  - `sanitizer.ensure_sanitized`.
- splitter.py and markdown_splitter.py wrap external libraries and services. The database and vector-store scripts are not part of this model either.
- A shared directory written with a trailing `/`: every path lemma except `MarkdownPathSlashedBase` requires `BaseDir(base)`. `_make_markdown_path` skips one character after the base (pdf_preprocessor.py:378), while `_get_synthetic_dir` (:420-423) and `get_pdf_from_markdown` (:216-218) drop a leading `/` only when it is there. With a trailing `/`, the markdown of a page image therefore loses the first letter of its collection (`MarkdownPathSlashedBase`), so it lands in a different collection from its PDF. Whether the shared directory can end in `/` depends on `common.py`, which is not part of this model.
- Aliasing: each node is a slot of an arena, not a shared object, so the model does not capture code that holds a reference to a node across calls.

## Findings

| source | as written | input that shows it | evidently intended | confidence | as-written member | corrected member |
|---|---|---|---|---|---|---|
| ragit/libs/impl/pdf_preprocessor.py:234 | the parent directory is compared with `md_file.split("_")[0]`, the stem up to its first underscore | the page-1 markdown `base/C/synthetic/markdowns/documents/my_doc/my_doc_1.md` of `base/C/documents/my_doc.pdf`, which the same module names at :87-91, raises ValueError | compare with the stem up to its last underscore (the PDF's name), so that every page markdown maps back to its PDF | medium; not executed | `PdfPaths.PageRoundTripUnderscore` | `PdfPaths.PdfOfPageMarkdown` |
