# Nebula onboarding assistant: verified model of the core logic

This project models, in Dafny, the three pieces of deterministic logic in the
Nebula onboarding assistant:

- **Incremental ingestion** (`ingest_data`, module `Ingestion`, file `ingest.dfy`).
  A run scans the policy files and hashes each one. It compares every hash
  with the registry saved by the previous run and sorts each file into new,
  modified, unchanged or deleted. It deletes the stale sources from the
  vector store, adds the chunks of new and modified files, and overwrites
  the registry with the current hashes. The vector store is a class. Its
  entries are a sequence of chunks with their embeddings, and a ghost log
  records each write. The registry is a class holding the saved map, or
  nothing when no registry file exists yet. The scan loops, the delete loop
  and the run are methods. Each is proved against spec functions of the
  registry and the scan (`CurrentHashes`, `ModifiedNames`, `ChunksToAdd`,
  `Stale`, `Reconciled`). The lemmas state what a run does for each source.
- **Structured lookup tools** (`lookup_employee`, `lookup_role_requirements`,
  module `Tools`, file `tools.dfy`). Employee lookup is a method whose loop
  builds the match list. It is proved equal to a spec filter, and the lemmas
  characterise that filter: which entries it keeps, their order and their
  multiplicity, conjunctive token matching, case-insensitivity, blank
  queries and not-found. Role lookup is a recursive first-match search.
  Results are the datatype `Found(records) | NotFound(message)` rather than
  JSON text.
- **Reply normalisation and error mapping** in the chat endpoint (module
  `Chat`, file `chat.dfy`). A reply's content is either a string or a list
  of typed parts, and the model collapses it to plain answer text. Any
  failure in the handler becomes HTTP 500 with one fixed detail message.

String primitives (ASCII lower-casing, whitespace splitting as `str.split()`
does it, substring tests) are in module `Text` (`text.dfy`). `Option` is in
`Wrappers` (`wrappers.dfy`).

Opaque collaborators become parameters:

- the MD5 content hash is `hash: Bytes -> string`;
- the markdown loader and splitters are `split: Bytes -> Option<seq<string>>`,
  where `None` means loading or splitting raised;
- the embedding model is the store's `embed` function;
- the agent's result is `Option<seq<Message>>`, where `None` means invoking
  the agent raised;
- the presence of `GOOGLE_API_KEY` is a boolean;
- a data file that may be missing is an `Option` of its records.

Being Dafny functions, these are deterministic. Nothing is assumed about
hash collisions.

Two behaviours of the code are worth knowing, because comments and tests
beside it suggest a different intent. The model follows the code as written:

- **Exact ID match does not short-circuit.** The comment at
  rag_engine/agents/tools.py:59 calls the ID match the "Strongest signal",
  and test/test_tools.py:10-13 expects exactly one record for the query
  "ENG-042". But the ID-match branch ends with `continue`, not `break`
  (rag_engine/agents/tools.py:62). It only skips the text test for that
  employee, and the scan goes on. Any other employee whose name, title and
  role id contain every query token is returned too.
  `Tools.ExactIdMatchDoesNotShortCircuit` exhibits a two-record result.
- **The registry is saved unconditionally.** `process_document` turns a
  load or split failure into an empty chunk list
  (rag_engine/ingestion/ingest.py:66-68). The run still saves every scanned
  file's hash at its end (rag_engine/ingestion/ingest.py:136), so a failed
  document is recorded as ingested. `Ingestion.FailedDocumentStaysOut`
  proves the consequence for a store whose every source is in the old
  registry (the state the runs themselves maintain, see
  `Ingestion.RunKeepsStoreRegistered`). A new or modified document whose
  processing failed then has no chunks after the run, and the next run
  with the same files treats it as unchanged. It stays out of the index
  until its content changes. Without that condition, a failed new file
  keeps whatever entries its source already held
  (`Ingestion.ReconciledBySource`, new-file case).

Source keys are file names. The delete uses `os.path.join(DATA_PATH, filename)`
(rag_engine/ingestion/ingest.py:123), and the model takes this to be the
path the loader records as `source` for that file's chunks, which is the
path the scan found (rag_engine/ingestion/ingest.py:82, 44).

## Model

| member | source | states |
|---|---|---|
| `Text.Split` | rag_engine/agents/tools.py:55 | every token of `str.split()` is non-empty and holds no whitespace |
| `Text.SplitEmptyIffBlank` | rag_engine/agents/tools.py:55 | a query yields no tokens exactly when it is empty or all whitespace |
| `Text.SplitAtSpace` | rag_engine/agents/tools.py:55 | the tokens of `a + " " + b` are the tokens of `a` followed by those of `b` |
| `Text.SplitJoinWords` | rag_engine/agents/tools.py:55 | splitting space-joined words gives the words back |
| `Text.ContainsAt` | rag_engine/agents/tools.py:70 | the `in` test holds exactly when the needle occurs at some position of the text |
| `Text.Lower` | rag_engine/agents/tools.py:55 | `str.lower()` over ASCII: same length, each upper-case letter replaced by its lower-case letter, every other character unchanged |
| `Text.Contains` | rag_engine/agents/tools.py:70 | Python's substring `in`: the empty needle is in every text, and a needle longer than the text never is |
| `Text.LowerIdempotent` | rag_engine/agents/tools.py:55 | lower-casing twice equals lower-casing once; lower-cased text has no upper-case letter |
| `Tools.LoadRecords` | rag_engine/agents/tools.py:15-21 | a missing data file reads as an empty record list |
| `Tools.EmployeeMatches` | rag_engine/agents/tools.py:58-71 | the selection rule: the lower-cased query equals the lower-cased id, or every query token occurs in the lower-cased name, title and role id; a blank query selects every employee |
| `Tools.MatchingEmployees` | rag_engine/agents/tools.py:57-71 | the selected employees in directory order: never more than the directory holds, each a directory entry the rule selects |
| `Tools.LookupEmployee` | rag_engine/agents/tools.py:48-76 | the loop's result is the spec lookup: the selected employees in directory order, or not-found with the quoted query when there are none |
| `Tools.MatchesAreSelectedPositions` | rag_engine/agents/tools.py:57-71 | the matches are exactly the directory positions the rule selects, in increasing order, each position once |
| `Tools.MatchingEmployeesMembership` | rag_engine/agents/tools.py:58-71 | an employee is returned iff it is in the directory and its id equals the query case-insensitively or its text holds every query token |
| `Tools.MatchingEmployeesOccurrences` | rag_engine/agents/tools.py:57-71 | a selected record appears as often as in the directory; an unselected one never appears |
| `Tools.EmployeeNotFoundIff` | rag_engine/agents/tools.py:73-74 | not-found iff no employee is selected, also when the org chart is missing; the message quotes the query |
| `Tools.ConjunctiveTextMatch` | rag_engine/agents/tools.py:66-71 | a two-part query matches iff both parts match; swapping the parts changes nothing |
| `Tools.QueryCaseIrrelevant` | rag_engine/agents/tools.py:55-62 | the query and its lower-cased form select the same employees |
| `Tools.BlankQuerySelectsEveryone` | rag_engine/agents/tools.py:55-71 | an empty or whitespace-only query selects the whole directory |
| `Tools.SingleSelectedEntry` | rag_engine/agents/tools.py:57-71 | when exactly one entry is selected, the result is that entry alone |
| `Tools.ExactIdMatchDoesNotShortCircuit` | rag_engine/agents/tools.py:59-62 | an id match does not end the scan: a query equal to one id can return two employees |
| `Tools.RoleMatches` | rag_engine/agents/tools.py:92 | the lower-cased query occurs in the lower-cased role id or title; the empty query matches every role |
| `Tools.FirstMatch` | rag_engine/agents/tools.py:91-93 | the position returned holds a role whose id or title contains the query, no earlier role does, and `|roles|` means none does |
| `Tools.LookupRoleRequirements` | rag_engine/agents/tools.py:80-95 | found means exactly one catalog role that contains the query; not-found iff no role does, with the fixed message |
| `Tools.RoleLookupPrefersEarliest` | rag_engine/agents/tools.py:91-93 | if some role matches, the one returned comes no later in catalog order and nothing before it matches |
| `Chat.ChatEndpoint` | backend/app/main.py:29-57 | an error is always status 500 with the fixed detail; there is an answer iff the agent returned a non-empty history whose last message normalises |
| `Chat.Normalise` | backend/app/main.py:41-49 | a string reply is its own answer (the `str(raw_content)` branch); a list reply has an answer only if every part is a dictionary |
| `Chat.NormaliseList` | backend/app/main.py:42-46 | list content normalises iff every part is a dict and every text part's text is a string; the result is the in-order concatenation of the text parts; `[]` gives `""` |
| `Chat.NonTextPartContributesNothing` | backend/app/main.py:45 | for every part list, inserting a non-text part, or a text part with no `"text"` key, leaves the outcome unchanged: the same answer, or a failure in both cases |
| `Chat.AnswerFromLastMessage` | backend/app/main.py:38-39 | the response depends only on the last message of the history |
| `Ingestion.Known` | rag_engine/ingestion/ingest.py:29-34 | a missing registry reads as the empty map, a saved one as its map |
| `Ingestion.Registry.Load` | rag_engine/ingestion/ingest.py:29-34 | loading returns `Known` of the registry file: the empty map when nothing was saved, otherwise the saved map |
| `Ingestion.Registry.Save` | rag_engine/ingestion/ingest.py:36-39 | saving overwrites the registry with the given map |
| `Ingestion.VectorStore.DeleteBySource` | rag_engine/ingestion/ingest.py:125 | removes exactly the entries of that source, keeps the order of the rest, logs one delete |
| `Ingestion.VectorStore.AddDocuments` | rag_engine/ingestion/ingest.py:130 | appends each chunk with the embedding of its text, logs one add |
| `Ingestion.Classify` | rag_engine/ingestion/ingest.py:97-107 | a file is new exactly when the registry lacks its name, unchanged exactly when the registry holds its current hash, modified otherwise |
| `Ingestion.ProcessDocument` | rag_engine/ingestion/ingest.py:41-68 | every chunk carries the file's name as source; a load or split failure yields no chunks |
| `Ingestion.ScanFiles` | rag_engine/ingestion/ingest.py:91-107 | the scan loop yields the current hashes, the chunks of new and modified files and the modified names, in scan order |
| `Ingestion.AppendDeleted` | rag_engine/ingestion/ingest.py:110-113 | appends exactly the registry names with no current hash, each once, after the modified names |
| `Ingestion.Scan` | rag_engine/ingestion/ingest.py:84-113 | the removal list holds each stale name once: modified files first in scan order, then deleted ones |
| `Ingestion.RemoveOutdated` | rag_engine/ingestion/ingest.py:118-125 | the store loses exactly the entries of the listed sources, one delete per name in list order |
| `Ingestion.ApplyChanges` | rag_engine/ingestion/ingest.py:117-130 | the store becomes the old entries without the listed sources, followed by the embedded chunks to add; the writes are the deletes in list order, then at most one add |
| `Ingestion.IngestData` | rag_engine/ingestion/ingest.py:70-137 | no API key changes nothing; otherwise the registry becomes the current hashes, the store becomes the reconciled store, and the run's writes are its deletes followed by at most one add |
| `Ingestion.DeletesBeforeAddsRun` | rag_engine/ingestion/ingest.py:117-130 | no delete of a run follows its add |
| `Ingestion.CurrentHashesExact` | rag_engine/ingestion/ingest.py:91-94 | the saved registry has exactly the scanned names as keys, each mapped to its file's hash, so names of deleted files disappear |
| `Ingestion.ModifiedNamesExact` | rag_engine/ingestion/ingest.py:100-103 | the modified names are exactly the known names whose current hash differs, each once |
| `Ingestion.StaleIsModifiedOrDeleted` | rag_engine/ingestion/ingest.py:97-113 | the removal set is exactly the modified files together with the registry names that have no current file |
| `Ingestion.ChunksToAddFrom` | rag_engine/ingestion/ingest.py:96-104 | the chunks added for a scanned file are its fresh chunks if new or modified and none if unchanged; other names get none |
| `Ingestion.ScannedFileTreatment` | rag_engine/ingestion/ingest.py:97-107 | a new file is chunked and never removed; a modified file is removed and re-chunked; an unchanged file is neither |
| `Ingestion.FromSourceWithout` | rag_engine/ingestion/ingest.py:121-125 | after deleting a set of sources, those sources hold nothing and every other source keeps its entries |
| `Ingestion.ReconciledBySource` | rag_engine/ingestion/ingest.py:118-130 | after a run, a modified file's source holds only the embedded chunks of its new content, a new file's chunks follow what its source held, a deleted file's source holds nothing, an unchanged file's source is untouched |
| `Ingestion.ReconciledKeepsEmbeddings` | rag_engine/ingestion/ingest.py:118-130 | if every stored vector is the embedding of its chunk's text, a run keeps it so; this is the store invariant `Valid` |
| `Ingestion.RunKeepsStoreRegistered` | rag_engine/ingestion/ingest.py:118-136 | if every stored source was in the old registry, every stored source is in the saved registry after the run |
| `Ingestion.SecondRunIsNoOp` | rag_engine/ingestion/ingest.py:97-136 | a run over unchanged files has nothing stale and nothing to add, and leaves the store as it was |
| `Ingestion.FailedDocumentStaysOut` | rag_engine/ingestion/ingest.py:99-136 | a new or modified file whose chunking failed has its hash saved anyway; when every stored source is in the old registry, its source holds no chunks after the run, and the next identical run adds none |

## Left out

- The MD5 digest, the markdown header splitter, the recursive character splitter (chunk size 1000, overlap 100) and the header metadata they attach are opaque function parameters. The chunk-size bound is therefore not stated.
- The Chroma store and the Google embedding client are left out. The store is a sequence of entries, and embedding is a total function. An embedding backend that fails during the add (an exception out of `ingest_data` after the deletes and before the save) is not modelled.
- File system and JSON work are left out: `glob`, `os.path.basename`, `open`, `json.load`/`json.dump`/`json.dumps`. The scan is given as a list of (name, bytes) pairs with distinct names, which is what a glob over one directory returns.
- Two exceptions out of `ingest_data` are not modelled: a scanned file that cannot be opened for hashing, and a registry file that holds invalid JSON.
- The race where a file changes between hashing and loading is not modelled: the model hashes and splits the same bytes.
- The registry is a `map`, so the key order of the saved JSON is not modelled. Registry equality is map equality, not byte equality. For the same reason, the order in which deleted names are appended to the removal list is left open.
- `GOOGLE_API_KEY` is reduced to set or not set; an empty value counts as not set, as in the source.
- `str.lower()` and `str.split()` are modelled over ASCII. Non-ASCII case mappings and Unicode whitespace other than the ASCII separators are not modelled.
- Employee and role records are typed datatypes. A record that lacks a key the tools index (`KeyError`) is not modelled.
- Content that is neither a string nor a list would go through Python's `str()`; the model has only these two shapes, which are the two the agent's messages carry.
- `search_policies` is left out: it is a similarity search in the external store plus string formatting. So are the agent graph, its memory keyed by thread id, the HTTP/CORS setup, the Streamlit front end and the request schema (which declares no length bounds).
