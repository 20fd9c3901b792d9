# Cats record store

A model of `CatsService`, the in-memory record store of a small NestJS
application. The store owns an ordered list of `Cat` records (name, age,
breed), which starts empty and is only ever appended to. It has three
operations:

- `create` appends a record at the end;
- `findAll` lists every record in insertion order;
- `findOne` scans from the front and returns the first record whose name is
  exactly the query, or fails with a not-found error whose message is
  `Cat <name> not found`.

`cats_service.dfy` (module `Cats`) holds the record and result datatypes,
the reference definition of the lookup (`FindFirst`) with its lemmas, and
the class `CatsService`. It has a `seq<Cat>` field that `Create` reassigns,
and `FindOne` is a read-only linear-scan loop proved against `FindFirst`.
`cats_service_spec.dfy` (module `CatsServiceSpec`) models the unit tests as
client methods, each on a freshly constructed store. It also holds the
general client-side properties: insertion-order listing after any series of
creations, repeatable reads, and find-after-create.

The thrown `NotFoundException` becomes the `NotFound(name)` variant of
`FindResult`. `FindResult.Message` gives its text. The source tests
`if (!cat)` after `Array.find`. A stored record is an object, so it is
always truthy, so this test means exactly "no record matched". The model
writes it that way.

## Model

| member | source | states |
|---|---|---|
| `Cats.FindResult.Message` | src/cats/cats.service.ts:19 | the not-found message is `Cat `, then the queried name verbatim, then ` not found` |
| `Cats.FindFirstCharacterized` | src/cats/cats.service.ts:16-21 | the front-to-back search returns a record at the smallest index whose name equals the query exactly; it fails, carrying the query, if and only if no record has that name |
| `Cats.FirstMatchUnique` | src/cats/cats.service.ts:17 | the first-match index is unique: at most one index holds the query's name with no earlier record holding it |
| `Cats.FirstMatchIsFound` | src/cats/cats.service.ts:17 | when several records share the query's name, the lookup returns the one at the first matching index, i.e. the earliest inserted |
| `Cats.FindFirstAppendKeepsFound` | src/cats/cats.service.ts:8-17 | appending a record never changes the outcome of a lookup that already succeeds |
| `Cats.FindFirstAfterAppend` | src/cats/cats.service.ts:8-21 | if no earlier record has `c.name`, then after appending `c` the lookup of `c.name` yields `c` |
| `Cats.CatsService.constructor` | src/cats/cats.service.ts:6 | a new store holds no records |
| `Cats.CatsService.Create` | src/cats/cats.service.ts:8-10 | the store grows by exactly one, the new record is last, and every earlier record is unchanged and in the same order |
| `Cats.CatsService.FindAll` | src/cats/cats.service.ts:12-14 | returns the stored records in insertion order and changes nothing |
| `Cats.CatsService.FindOne` | src/cats/cats.service.ts:16-22 | agrees with `FindFirst`: on success the record is a stored one, named exactly the query, at the first such index; NotFound carrying the query exactly when no stored record has that name; the store is unchanged |
| `CatsServiceSpec.CreateEachThenFindAll` | src/cats/cats.service.ts:6-14 | a fresh store that receives `create(r1)` ... `create(rn)` lists exactly `[r1, ..., rn]` |
| `CatsServiceSpec.FindAllTwice` | src/cats/cats.service.ts:12-14 | two listings with no creation in between are equal |
| `CatsServiceSpec.FindOneThenFindAll` | src/cats/cats.service.ts:16-22 | a lookup, successful or not, leaves the listed records as they were |
| `CatsServiceSpec.CreateThenFindOne` | src/cats/cats.service.ts:8-21 | after creating a cat whose name no earlier record has, looking that name up returns the cat |
| `CatsServiceSpec.ShouldCreateACat` | src/cats/cats.service.spec.ts:19-24 | on a fresh store, the created cat is contained in the listing |
| `CatsServiceSpec.ShouldFindACatByName` | src/cats/cats.service.spec.ts:26-31 | on a fresh store, looking up the created cat's name returns a record equal to it |

## Left out

- The `@Injectable()` decorator, dependency-injection scoping and the testing-module setup (src/cats/cats.service.ts:1,4; src/cats/cats.service.spec.ts:7-13) are framework plumbing with no logic. The clients construct the store explicitly.
- The "should be defined" test (src/cats/cats.service.spec.ts:15-17) only checks that the injector produced an instance. In Dafny, construction always yields one.
- The HTTP meaning of `NotFoundException` (status 404) is not modelled. The error is only a variant that carries the queried name.
- `create` stores the caller's own object, `findAll` returns the live backing array, and `findOne` returns the stored object itself. So in the source, callers can mutate the store through what they passed in or received: renaming a cat object after `create` changes what `findOne` finds. The model stores and returns immutable `seq` and datatype values, so this aliasing is absent.
- Strings are Dafny strings, sequences of Unicode scalar values, whereas JavaScript strings are UTF-16 code units. Equality agrees on well-formed strings, but a lone surrogate cannot be represented, and the length in `Cats.FindResult.Message`'s contract counts scalar values, not JavaScript `.length`.
- `age` is a JavaScript number. It is modelled as an unbounded `int`, since the store never computes with it; non-integer ages are not represented.
- The `Cat` interface (`./interfaces/cat.interface`) is not part of this model. Its three fields are taken from the test literals.
