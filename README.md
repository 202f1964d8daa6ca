# Portfolio web server: project list and error pages

A model of the logic in the portfolio web server's `src/main.rs`:

- **The project list.** `get_projects` reads `templates/projects.json` and parses it into a map from an arbitrary key to a `Project`. It pushes the map's values onto a vector in iteration order and sorts the vector stably by descending `rank`. Then it reverses the vector in place. The model proves the result is a permutation of the map's values, ascending by rank. Projects of equal rank appear in the reverse of their iteration order. It also proves that this order is the only one with both properties.
- **The responses.** The index handler binds the list as `projects` and renders `index.html`: 200 `text/html` on success, 500 "Template error" on failure. The "not found" handler renders `error.html` with `error` and `status_code` bound. When there is no template engine or rendering fails, it falls back to the bare message as `text/plain`. The status is kept either way.

Modules:

- `outcomes.dfy`: `Option` and `Result`.
- `projects.dfy` (module `Projects`):
  - the `Project` record and map iteration;
  - the specification functions of the order: `Values`, `StableSortDesc`, `Reversed`, `ProjectOrder`;
  - the lemmas about them.
- `project_store.dfy` (module `ProjectStore`):
  - `get_projects` as imperative code on an array: the collecting loop, an in-place stable sort and an in-place reversal;
  - each method is proved equal to the specification function;
  - `LoadProjects` is the whole outcome, including the failure paths.
- `responses.dfy` (module `Responses`): status text, template contexts, the error page and its fallback, the error-handler registration and the index handler.

Outside the model:

- The file read is a `FileRead` value: opened and read, or failed at open or at read.
- The JSON parser is a function parameter `string -> Option<seq<Entry>>`. It yields the parsed map's entries in its iteration order, or nothing on malformed input.
- The template engine is a datatype holding a total render function. Rendering is therefore deterministic: the same template and context always give the same outcome.

Two facts about the code shape the model:

- **Tie order.** The stable descending sort followed by the reversal lists projects of equal rank in the reverse of the order in which that request's map was iterated. The order is fixed only relative to that one iteration. The map is a hash map with randomly seeded hashing, so two requests for the same file may iterate it differently and list ties differently. The model states and proves the order relative to the iteration it is given.
- **Load failures.** When the project file cannot be opened, read or parsed, the loader panics. The model records this as a `LoadError` and as the `Aborted` handler outcome, never as a response. It is never a partial list.

## Model

| member | source | states |
|---|---|---|
| `Projects.Values` | src/main.rs:62-64 | the collected vector has one element per map entry, the entry's value, in iteration order; keys are dropped |
| `Projects.MapValuesCollected` | src/main.rs:57-64 | collecting an iteration of the parsed map gives exactly as many projects as the map has entries, and exactly the map's values |
| `Projects.WithRankMembers` | src/main.rs:66 | the per-rank subsequence holds exactly the projects of that rank |
| `Projects.InsertByRankDesc` | src/main.rs:66 | one step of the stable descending sort; `InsertMultiset`, `InsertKeepsDescending`, `InsertWithRank` and `ProjectStore.InsertAt` state what it computes |
| `Projects.StableSortDesc` | src/main.rs:66 | the stable sort by descending rank; `StableSortMultiset`, `StableSortIsDescending`, `StableSortWithRank` and `StableSortUnique` state what it computes |
| `Projects.Reversed` | src/main.rs:67 | the reversal: the element at each position is the one at the mirrored position; `ReversedMultiset`, `ReversedWithRank` and `ReversedTwice` add the rest |
| `Projects.ProjectOrder` | src/main.rs:66-67 | sort then reverse; `ProjectOrderIsPermutation`, `ProjectOrderAscending`, `ProjectOrderTiesReversed` and `ProjectOrderCharacterized` state what it computes |
| `Projects.InsertMultiset` | src/main.rs:66 | one insertion step of the stable sort adds exactly the inserted project |
| `Projects.InsertKeepsDescending` | src/main.rs:66 | an insertion step keeps a descending-by-rank sequence descending |
| `Projects.InsertWithRank` | src/main.rs:66 | an insertion step puts the inserted project after every project of its rank already placed |
| `Projects.StableSortMultiset` | src/main.rs:66 | the sort by descending rank is a permutation of its input |
| `Projects.StableSortIsDescending` | src/main.rs:66 | the sort's result is in non-increasing order of rank, as the comparator `b.rank.cmp(&a.rank)` asks |
| `Projects.StableSortWithRank` | src/main.rs:66 | the sort is stable: for every rank, the projects of that rank keep their input order |
| `Projects.StableSortUnique` | src/main.rs:66 | any descending-by-rank sequence with the input's per-rank order equals the modelled sort, so any stable sort with this comparator gives the same result |
| `Projects.ReversedMultiset` | src/main.rs:67 | reversing is a permutation |
| `Projects.ReversedWithRank` | src/main.rs:67 | reversing reverses every per-rank subsequence |
| `Projects.ReversedTwice` | src/main.rs:67 | reversing twice gives back the sequence |
| `Projects.ReversedDescendingIsAscending` | src/main.rs:66-67 | the reverse of a descending-by-rank sequence is ascending by rank |
| `Projects.ProjectOrderIsPermutation` | src/main.rs:62-67 | the listed projects are the collected ones: same length, same multiset |
| `Projects.ProjectOrderAscending` | src/main.rs:66-67 | the listed projects are in non-decreasing order of rank |
| `Projects.ProjectOrderTiesReversed` | src/main.rs:66-67 | projects of equal rank are listed in the reverse of their collected order |
| `Projects.RankOrderUnique` | src/main.rs:66-67 | two ascending-by-rank sequences with the same per-rank subsequences are equal |
| `Projects.ProjectOrderCharacterized` | src/main.rs:66-67 | a sequence is the listed order if and only if it is ascending by rank with each rank's projects in reverse collected order |
| `Projects.TwoProjectsExample` | src/main.rs:62-67 | key "a" with rank 2 and key "b" with rank 1 are listed as b, then a |
| `ProjectStore.LoadProjects` | src/main.rs:37-70 | open, read or parse failure gives an error and no list; otherwise the list is a permutation of the parsed values in homepage order |
| `ProjectStore.LoadedListFromMap` | src/main.rs:57-67 | for a file that parses to a map, a list is produced; it has one project per map entry, holds only the map's values, and is the one sequence in homepage order |
| `ProjectStore.InsertAt` | src/main.rs:66 | an inserted project lands after every project that outranks or ties it and before those it outranks |
| `ProjectStore.CollectValues` | src/main.rs:38-64 | the loop pushes every entry's value, in iteration order, onto a fresh vector |
| `ProjectStore.InsertIntoSorted` | src/main.rs:66 | shifting `a[i]` into the sorted prefix leaves the prefix equal to the stable insertion of that project; the rest of the array is unchanged |
| `ProjectStore.SortByRankDesc` | src/main.rs:66 | the in-place sort leaves the array equal to the stable descending sort of its old contents |
| `ProjectStore.ReverseInPlace` | src/main.rs:67 | the in-place reversal leaves the array equal to the reverse of its old contents |
| `ProjectStore.GetProjects` | src/main.rs:37-70 | the imperative loader returns exactly `LoadProjects`: the error, or the homepage-ordered permutation of the parsed values |
| `Responses.StatusText` | src/main.rs:160 | the status as text is three decimal digits |
| `Responses.StatusTextParses` | src/main.rs:160 | the status text reads back as the same code |
| `Responses.ParsedStatusIsText` | src/main.rs:160 | a text that reads as a code is that code's status text |
| `Responses.StatusTextRoundTrip` | src/main.rs:160 | a text reads back as a code if and only if it is that code's status text |
| `Responses.Insert` | src/main.rs:158-160 | binding a name adds it to the context with the new value and keeps every other binding |
| `Responses.ErrorContext` | src/main.rs:158-160 | the error-page context binds exactly `error` to the message and `status_code` to the status text |
| `Responses.Fallback` | src/main.rs:149-153 | the fallback response has the original status, `text/plain` and exactly the message as its body |
| `Responses.ErrorResponse` | src/main.rs:144-172 | the status is always that of the original response; the response is `text/html` with the rendered `error.html` if and only if an engine is present and renders it, and otherwise it is the plain-text fallback |
| `Responses.NotFound` | src/main.rs:136-141 | the "not found" handler keeps the status; it is `text/html` with the page rendered from the context for "Page not found" if and only if an engine is present and renders `error.html`, and otherwise plain text exactly "Page not found" |
| `Responses.HandleErrors` | src/main.rs:131-133 | only a 404 response is replaced by the "not found" page; every other response passes unchanged |
| `Responses.NotFoundPage` | src/main.rs:132-160 | for a 404, the page context binds "Page not found" and "404"; without a working template the client gets 404 `text/plain` "Page not found" |
| `Responses.Index` | src/main.rs:75-84 | a load failure aborts the handler; otherwise `index.html` rendered with `projects` bound gives 200 `text/html`, and a render failure gives 500 "Template error" |
| `Responses.IndexRendersHomepageOrder` | src/main.rs:75-84 | for a parsed map, the index always replies with 200 or 500; it is 200 exactly when `index.html` renders from a list with one project per map entry, only the map's values, in the unique homepage order |

## Left out

- Reading `templates/projects.json` and JSON parsing are file I/O and a foreign library. They are inputs: a `FileRead` value and a parser function.
- The order of map iteration is not modelled. The model takes it as an arbitrary sequence of distinct keys with their values (`IsIterationOf`). Because the parser is a function of the file text, the model makes that order a deterministic function of the text. The hash map in the code is seeded randomly for each map, so its iteration order, and with it the order of equal-rank projects, may differ between requests for the same file.
- The sort algorithm itself is a library merge sort. The model uses a stable insertion sort instead. `StableSortUnique` shows that every stable sort with the same comparator gives the same result.
- `rank` is an unbounded `nat` rather than a 64-bit `usize`. Only comparisons are made on it, so no overflow can occur.
- The derived `Ord` on `Project` is not modelled, because the sort compares only `rank`.
- Rendering templates (Tera) is a foreign library. It is an uninterpreted total function in the model. Template loading at startup and its failure are not modelled.
- The panic on a load failure is modelled as the `Aborted` outcome. What the framework then does with the worker and the connection is not modelled.
- `Responses.Index`: the 500 response uses the content type the framework gives an internal-server-error value (`text/plain; charset=utf-8`). That library behaviour is taken as given, not derived.
- The certificate and key loading, the server construction, socket binding and running are left out. They are TLS, networking and concurrency.
- The HTTP-to-HTTPS redirect middleware and its port replacement are left out. They are library code not in this model.
- Static file serving under `/images`, `/css` and `/fonts` is a library wrapper, as is the routing of `/` and `/index.html` to the index handler. Both are left out.
- The logger setup is left out.
