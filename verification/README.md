# Route finder and user list of the CPTM companion service, in Dafny

This project models the logic of a small transit companion service. The
service is an Express server in TypeScript, and the model covers three
pieces of it.

- **Route search.** `buscarCaminho` does a breadth-first search over the
  station graph. It keeps a FIFO queue of partial paths and a set of
  expanded stations (`visitados`).
- **The `/rota` handler.** It normalises station names with
  `normalizarTexto` (NFD, drop combining marks U+0300..U+036F, lower-case).
  It resolves `orig` and `dest` to the first station whose normalised name
  matches, or whose id matches verbatim. It then maps the search outcome to
  one of four responses: missing parameters, station not found, no route, or
  the route.
- **The user lists.**
  - The in-memory signup list in `src/server.ts`: `GET /proximoId` and the
    checks and append of `POST /usuarios`.
  - The file-backed wallet in `src/henrique.ts`: `GET /usuarios/:id` and
    `PUT /usuarios/:id/saldo`, which credits the balance and appends one
    history entry.
  - Both become pure functions from the list to an outcome and the list to
    save.

Modules, one per component:

| file | module | models |
|---|---|---|
| `common.dfy` | `Common` | `Option`, the first-match search behind every `find`, JSON body values and truthiness |
| `text.dfy` | `Text` | `normalizarTexto` |
| `stations.dfy` | `Stations` | `Estacao`, lookup by id, hops and paths |
| `route_finder.dfy` | `RouteFinder` | `buscarCaminho`, with its loop invariants |
| `route_service.dfy` | `RouteService` | station resolution and the `/rota` responses |
| `signup.dfy` | `Signup` | `/proximoId` and `POST /usuarios` |
| `wallet.dfy` | `Wallet` | `parseInt`, `GET /usuarios/:id`, `PUT /usuarios/:id/saldo` |

The search is proved correct for every station list, however odd:

- duplicate ids are allowed;
- neighbour ids may name no station;
- adjacency need not be symmetric.

A returned path:

- starts at the origin and ends at the destination;
- follows listed hops;
- repeats no station;
- is no longer than any other path.

The search returns nothing exactly when the destination is unreachable. It
terminates because every turn either expands one more station of a finite
set or shortens the queue.

The minimality proof keeps a ghost map from each expanded station to the
length of the path that expanded it. It maintains three facts:

- **Layered:** the queue is sorted by length, and its lengths differ by at
  most one.
- **Covered:** every hop leaving an expanded station leads either to a
  station expanded at most one level later, or to one waiting in the queue
  at the end of a path at most one station longer.
- **Front is shortest:** walking any path to the destination reaches a first
  unexpanded station, and the queue front is no longer than the path that
  station waits on.

Empty queries never reach the resolver. An absent or empty `orig` or
`dest` gives "missing parameters". A whitespace-only query does go to the
resolver, where it matches only a station whose normalised name or id is
that same whitespace.

## Model

| member | source | states |
|---|---|---|
| Common.FindIndex | src/server.ts:76-81 | `find` returns the first element that satisfies the test, and none when no element does |
| Text.Nfd | src/server.ts:45 | `normalize("NFD")` leaves only chars that do not decompose further; a string that has no precomposed letter is unchanged |
| Text.StripMarks | src/server.ts:45 | the `replace` keeps exactly the chars that are not combining marks U+0300..U+036F, and keeps a mark-free string as it is |
| Text.Lower | src/server.ts:45 | `toLowerCase` maps each ASCII capital to its lower-case letter, keeps every other char in place, and leaves no capital |
| Text.Normalize | src/server.ts:44-46 | a normalised name has no combining mark, no capital and no precomposed letter |
| Text.NormalIsFixed | src/server.ts:44-46 | a string that is already in normal form is left as it is |
| Text.NormalizeIdempotent | src/server.ts:44-46 | normalising twice is the same as normalising once |
| Text.NormalizeAppend | src/server.ts:44-46 | normalisation works char by char: it distributes over concatenation |
| Text.NormalizeIgnoresCase | src/server.ts:44-46 | lower-casing a query before normalising it changes nothing, so station lookup ignores case |
| Text.NormalizeDropsAccent | src/server.ts:44-46 | an accented letter normalises to its lower-case base letter, so station lookup ignores accents |
| Stations.FindStation | src/server.ts:59 | the lookup of an id gives the first station carrying it, or none when no station does |
| Stations.Neighbors | src/server.ts:59-61 | the search expands only ids listed in some `vizinhos`, and a station with a hop leaving it is one the lookup finds |
| Stations.PathInteriorKnown | src/server.ts:59-62 | every station of a path but the last has a hop leaving it, so it is a known station |
| RouteFinder.FindPath | src/server.ts:48-67 | a returned path goes from origin to destination along hops, repeats no station and is no longer than any other path; nothing is returned exactly when the destination is unreachable |
| RouteFinder.FindPathToItself | src/server.ts:49-55 | searching from a station to itself gives the one-station path |
| RouteFinder.Extensions | src/server.ts:61-62 | the loop pushes only the path extended by one hop to a neighbour not yet expanded, in neighbour-list order |
| RouteFinder.ExtensionsComplete | src/server.ts:61-62 | every neighbour not yet expanded gets its extension pushed |
| RouteFinder.EnqueueNeighbors | src/server.ts:60-63 | the old queue is kept and exactly the extensions to unexpanded neighbours are appended after it; after the neighbour loop every queued path is at least as long as the expanded one, the queue is sorted with lengths at most one apart, every queued path is simple and follows hops, and every hop leaving an expanded station is accounted for |
| RouteFinder.Expand | src/server.ts:53-64 | the dequeued station is added to the expanded set, the rest of the queue survives the `shift` with the extensions to unexpanded neighbours appended, the search invariants hold again and one station fewer is left to expand |
| RouteFinder.DequeuedIsShortest | src/server.ts:52-55 | the first dequeued path that ends at the destination is a simple path no longer than any path there |
| RouteFinder.FrontIsShortest | src/server.ts:52-62 | under the FIFO discipline the queue front is no longer than any path from the origin to the unexpanded destination |
| RouteFinder.ClosedUnderHops | src/server.ts:57-65 | once the queue is empty, every station reachable from the expanded origin has been expanded |
| RouteFinder.Exhausted | src/server.ts:52-66 | an empty queue means the destination cannot be reached |
| RouteService.Resolve | src/server.ts:76-81 | a query resolves to the first station whose normalised name equals the normalised query or whose id equals the query verbatim, and to none when no station matches |
| RouteService.ResolveIgnoresAccentsAndCase | src/server.ts:76-81 | two queries with the same normal form that are not station ids resolve to the same station |
| RouteService.ResolveOwnId | src/server.ts:76-81 | a station's id resolves to that station or an earlier one, and to that station when no earlier one matches it |
| RouteService.ToStations | src/server.ts:55 | mapping the path ids to stations keeps the ids in order, each mapped to the first station carrying it |
| RouteService.PathKnown | src/server.ts:55 | every id of a path to a resolved destination is a known station, so the mapping never meets a missing one |
| RouteService.Route | src/server.ts:69-95 | missing parameters exactly when `orig` or `dest` is absent or empty; not found exactly when one does not resolve; no route exactly when the destination is unreachable; otherwise the names of the resolved stations and a shortest simple path whose length is `total_estacoes` |
| Signup.NextId | src/server.ts:103-111 | `/proximoId` looks only at the last user, yet on any list whose ids increase along the list it is above every id in use, so a new user never reuses an id |
| Signup.NextIdFresh | src/server.ts:103-111 | on a list built by signups the next id is the length plus one, above every id in use |
| Signup.AnyEmailMatches | src/server.ts:130 | `some` is true exactly when an existing email equals the given one after lower-casing both |
| Signup.Register | src/server.ts:114-143 | the four rejections hold exactly under their conditions, checked in order, and leave the list unchanged; a success appends the user with the next id and returns it without `senha` |
| Signup.RegisterAdvancesNextId | src/server.ts:135-139 | a signup moves `/proximoId` on by exactly one, and a refused signup leaves it unchanged |
| Signup.RegisterKeepsIdsConsecutive | src/server.ts:135-139 | signups keep the ids 1, 2, 3, ... in list order |
| Signup.RegisterKeepsEmailsUnique | src/server.ts:130-139 | signups never let two users share an email up to case |
| Signup.RegisterTwice | src/server.ts:130-133 | signing up again with the same email in any letter case is refused as taken |
| Wallet.Magnitude | src/henrique.ts:28 | `parseInt` finds no number exactly when no digit of the radix its prefix selects comes first |
| Wallet.ParseInt | src/henrique.ts:28 | `parseInt` is `NaN` exactly when no digit follows the whitespace and sign; otherwise it is the magnitude, negated after a minus sign |
| Wallet.ParseIntOfNat | src/henrique.ts:28 | a non-negative id written in decimal parses back to itself |
| Wallet.ParseIntOfNegative | src/henrique.ts:28 | a negative id written in decimal parses back to itself |
| Wallet.FindUser | src/henrique.ts:35 | the lookup gives the first user with the id, or none when no user has it |
| Wallet.GetUser | src/henrique.ts:27-42 | invalid id exactly when the parameter parses to `NaN`; not found exactly when no user has the id; otherwise the first user with the id |
| Wallet.AddCredit | src/henrique.ts:57-62 | a credit adds the amount to `saldo` and appends one history entry carrying that amount, and changes no other field of the user |
| Wallet.Credit | src/henrique.ts:45-71 | invalid id, invalid amount and not found hold exactly under their conditions, checked in order, and leave the list unchanged; a success changes only the first user with the id, adding the amount to `saldo` and appending one entry with that amount, and answers with the new balance and history |
| Wallet.CreditTotal | src/henrique.ts:57 | a credit adds exactly the credited amount to the sum of all balances, and a refusal adds nothing |
| Wallet.CreditThenGet | src/henrique.ts:27-70 | after a credit, reading the same user back shows the balance and history of the response |

## Left out

- HTTP, Express routing, status codes, JSON bodies and static files are out. Each handler's outcome is a result datatype, and each error is named after the message it sends.
- Reading `estacoes.json` and reading and writing `usuarios.json` are out. The station list and the user list are plain inputs, and the list to save is an output.
- The WhatsApp redirect `/fale-conosco` and the root page are out; they hold no logic.
- The front-end script `assets/js/home.js` is out; it is DOM, storage and timers.
- Text.Nfd: canonical decomposition is modelled by a table of the precomposed Latin-1 letters used in Portuguese names (à á â ã é ê í ó ô õ ú ü ç and their capitals). Every other char is taken as already decomposed, so the full Unicode decomposition table is not modelled. Nor is the canonical reordering of combining marks outside U+0300..U+036F by their combining class, which `normalize("NFD")` also does.
- Text.NormalizeAppend, Text.NormalIsFixed: these hold of the modelled normalisation. On a string with two adjacent marks outside U+0300..U+036F that are out of canonical order, `normalizarTexto` reorders them, and these two lemmas do not describe that.
- Text.Lower: `toLowerCase` is modelled on ASCII letters only; other capitals are kept.
- RouteFinder.FindPath: returns the path as station ids, and `RouteService.ToStations` maps the ids to stations as `buscarCaminho` does. Which of several shortest paths comes back, the one found first in neighbour-list order, is not stated.
- Lengths are counted in Unicode scalar values, where JavaScript counts UTF-16 code units. The two differ only for chars outside the Basic Multilingual Plane, e.g. in `String(senha).length`.
- `String(n)` of a JSON number, and `String` of an array or object, are carried in the `Json` value as inputs; number formatting is not modelled.
- Balances and amounts are exact reals, so floating-point rounding of `saldo += valor` is not modelled.
- Ids are unbounded integers, so the loss of precision of numbers beyond 2^53 is not modelled.
- The history entry's timestamp (`new Date().toISOString()`) and its description (built with `valor.toFixed(2)`) are inputs of `Wallet.Credit`.
- Wallet.ParseInt: skips the ASCII whitespace chars only, not the other Unicode spaces JavaScript also skips.
- A `orig`/`dest` query parameter that arrives as an array or an object (given more than once, or written `orig[a]=b`) is out. The handler throws on it as soon as the station list is non-empty, and `Query` holds only strings.
- A stored user without a `historico` array is out.
- `lat` and `lng` are only passed through, so nothing is stated about them.
