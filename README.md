# Todo list: client service, server controller and add-todo form

This project models the core of a small todo-list web application and proves
properties of that model. The application has an Angular client and a Java
(Javalin + MongoDB) server. Three pieces are modelled.

- **The client's `TodoService`** (module `TodoService`):
  - `getTodos` turns its optional options into the query parameters of the
    HTTP request. A falsy field is skipped, and `sort` travels as `orderBy`.
  - `getTodoById` requests the todo's URL.
  - `filterTodos` narrows a list of todos by category and body, using
    case-insensitive substring matches, and by the status words `complete`
    and `incomplete`. It also writes the lower-cased criteria back into the
    caller's object.
- **The server's `TodoController`** (module `TodoController`):
  - `constructFilter` checks the `owner` and `status` query parameters and
    builds the MongoDB filter document. The owner becomes a case-insensitive
    regular expression, and the status a boolean equality.
  - `constructSortingOrder` returns the empty document.
  - `getTodo` answers 400 for an id that is not an object id and 404 for an
    unknown one. Otherwise it sets the todo as the JSON body with status 200.
  - `md5` renders a digest as lower-case hexadecimal, two digits per byte.
- **The `AddTodoComponent`** (module `AddTodo`):
  - `createForms` builds the new-todo form with its validators.
  - `addTodoValidationMessages` is the table of messages shown for each
    validator's error key. The component holds the table as declared. A
    corrected table, in which every validator's error has a message, is
    modelled beside it (see "## Findings").

Shared modules:

- `Wrappers` holds `Option` and `Result`.
- `Todos` holds the todo record.
- `Strings` holds ASCII lower-casing, `indexOf`/containment,
  `equalsIgnoreCase` and decimal rendering of numbers.

The server's query context is a map from parameter name to its (first) value.
A parameter check failure is an `Err` carrying a `ValidationError` (key,
message, value). The regular-expression engine and the MD5 digest are function
parameters. The HTTP context of `getTodo` is a `Context` class whose response
fields the method updates.

## Model

| member | source | states |
|---|---|---|
| Strings.Lower | client/src/app/todos/todo.service.ts:69-70 | `toLowerCase` keeps the length and lower-cases each character in place |
| Strings.LowerIdempotent | client/src/app/todos/todo.service.ts:69 | lower-casing twice is lower-casing once |
| Strings.IndexOf | client/src/app/todos/todo.service.ts:70 | `indexOf` returns the first index where the text occurs, or -1 exactly when it occurs nowhere |
| Strings.EqualsIgnoreCase | server/src/main/java/umm3601/todo/TodoController.java:122-125 | `equalsIgnoreCase` holds exactly when both texts have the same length and the characters at each position agree once lower-cased |
| Strings.ContainsIff | client/src/app/todos/todo.service.ts:70 | `indexOf(...) !== -1` holds exactly when the text occurs at some index |
| Strings.NatToStringRoundTrip | client/src/app/todos/todo.service.ts:35 | the decimal rendering of a number reads back as that number |
| Strings.IntToStringRoundTrip | client/src/app/todos/todo.service.ts:35 | a `limit` number rendered as a parameter value reads back as the number, sign included |
| TodoService.Get | client/src/app/todos/todo.service.ts:23-39 | a parameter lookup finds a value exactly when the key is present, and that pair is among the parameters |
| TodoService.KeyIndex | client/src/app/todos/todo.service.ts:26 | the position of the first pair under a key, or -1 exactly when the key is absent |
| TodoService.SetParam | client/src/app/todos/todo.service.ts:26 | `HttpParams.set` leaves the key mapped to the new value and every other key mapped as before; a new key is appended at the end; an existing key keeps the key order |
| TodoService.CollectKeys | client/src/app/todos/todo.service.ts:24-40 | the collected keys are a subsequence of the wire keys, in their order |
| TodoService.CollectUnique | client/src/app/todos/todo.service.ts:24-40 | collecting over distinct keys gives each key at most once |
| TodoService.CollectGet | client/src/app/todos/todo.service.ts:24-40 | the value collected under a key is the value the options give that key |
| TodoService.LaterKeysAreFresh | client/src/app/todos/todo.service.ts:25-39 | each `set` adds a key not yet present, so it appends |
| TodoService.GetTodos | client/src/app/todos/todo.service.ts:18-47 | without options no parameter is sent; otherwise the parameters are exactly the pairs of the truthy fields, in the order owner, body, status, limit, orderBy |
| TodoService.QueryParamsKeys | client/src/app/todos/todo.service.ts:23-40 | no key is sent twice, and the keys are a subsequence of owner, body, status, limit, orderBy |
| TodoService.QueryParamsValues | client/src/app/todos/todo.service.ts:25-39 | each key carries the value of its field exactly when that field is truthy; no other key is sent |
| TodoService.QueryParamsCount | client/src/app/todos/todo.service.ts:25-39 | the number of parameters is the number of truthy fields |
| TodoService.QueryParamsExamples | client/src/app/todos/todo.service.spec.ts:94-173 | `{owner:'roberta'}`, `{status:'complete'}` and `{body:'Hello', status:'incomplete'}` send exactly the pairs the tests expect; an empty owner and a zero limit are skipped |
| TodoService.TodoByIdUrl | client/src/app/todos/todo.service.ts:49-51 | the URL is the collection URL, a slash and the id verbatim, and the id reads back from it |
| TodoService.TodoByIdUrlInjective | client/src/app/todos/todo.service.ts:49-51 | different ids are requested at different URLs |
| TodoService.StatusFlag | client/src/app/todos/todo.service.ts:79-81 | `complete` means finished, `incomplete` means unfinished, and any other token means neither |
| TodoService.Keep | client/src/app/todos/todo.service.ts:70 | `Array.filter` keeps, in order, exactly the todos that pass, each as many times as it occurs in the input |
| TodoService.KeepKeep | client/src/app/todos/todo.service.ts:67-85 | filtering a filtered list is filtering once by both conditions |
| TodoService.Lowered | client/src/app/todos/todo.service.ts:68-69 | a truthy criterion is written back lower-cased; a falsy one is untouched |
| TodoService.Matching | client/src/app/todos/todo.service.ts:66-86 | the one-pass filter keeps, in order, exactly the todos that meet every truthy criterion, each as many times as it occurs in the input |
| TodoService.FilterTodos | client/src/app/todos/todo.service.ts:66-86 | the staged filter returns the one-pass filter's result, and the caller's criteria come back with category and body lower-cased |
| TodoService.LoweredCriteriaAdmitSame | client/src/app/todos/todo.service.ts:69-75 | the rewritten criteria admit the same todos as the original ones |
| TodoService.FilterIdempotent | client/src/app/todos/todo.service.ts:66-86 | filtering the result again, with the original or the rewritten criteria, changes nothing |
| TodoService.FilterConjunction | client/src/app/todos/todo.service.ts:68-76 | filtering by category and body is filtering by category, then by body |
| TodoService.FilterWithoutCriteria | client/src/app/todos/todo.service.ts:66-86 | with no truthy criterion the list comes back unchanged; an empty list gives an empty result |
| TodoService.FilterByStatus | client/src/app/todos/todo.service.ts:78-83 | `complete` keeps exactly the finished todos and `incomplete` exactly the unfinished ones; any other token, `Complete` included, keeps none |
| TodoService.CategoryExample | client/src/app/todos/todo.service.spec.ts:222-232 | filtering the three fixtures by category `i` keeps Sam alone |
| TodoService.BodyExample | client/src/app/todos/todo.service.spec.ts:234-244 | filtering the three fixtures by body `cool` keeps Sam alone |
| TodoController.ConstructFilter | server/src/main/java/umm3601/todo/TodoController.java:109-138 | the loop over the parameters builds the filter the specification function `FilterOf` gives |
| TodoController.FilterRejects | server/src/main/java/umm3601/todo/TodoController.java:113-124 | a request fails exactly when the owner is present and empty, or the status is present and is neither word in any case; the owner check comes first; each failure carries its key, message and value |
| TodoController.FilterShape | server/src/main/java/umm3601/todo/TodoController.java:113-135 | an accepted request gives the empty document exactly when neither key is present; otherwise one or two terms, the owner regex first and the status equality last |
| TodoController.CombineShape | server/src/main/java/umm3601/todo/TodoController.java:135 | no terms give the empty document; one or two give their conjunction, in order |
| TodoController.FilterMeaning | server/src/main/java/umm3601/todo/TodoController.java:109-138 | a todo satisfies an accepted filter exactly when its owner matches the owner pattern case-insensitively and its status is the one the status value names |
| TodoController.SatisfiesTwo | server/src/main/java/umm3601/todo/TodoController.java:135 | a conjunction of up to two terms holds when each present term holds |
| TodoController.OwnerTermHolds | server/src/main/java/umm3601/todo/TodoController.java:117 | the owner term holds when the matcher accepts the owner with option `i` |
| TodoController.StatusTermHolds | server/src/main/java/umm3601/todo/TodoController.java:125-129 | for a valid status, the status term holds exactly when the todo is finished for `complete` and unfinished for `incomplete` |
| TodoController.CompleteIsNotIncomplete | server/src/main/java/umm3601/todo/TodoController.java:122-128 | no value is both words up to case, so the branch is well defined |
| TodoController.StatusIgnoresCase | server/src/main/java/umm3601/todo/TodoController.java:122-125 | status values that differ only in case give the same result |
| TodoController.EmptyOwnerRequest | server/src/test/java/umm3601/todo/TodoControllerSpec.java:229-243 | an empty owner is rejected with the owner message |
| TodoController.BadStatusRequest | server/src/test/java/umm3601/todo/TodoControllerSpec.java:314-325 | the status `bad` is rejected with the status message |
| TodoController.StatusOnlyFilter | server/src/main/java/umm3601/todo/TodoController.java:120-135 | a valid status and no owner give the status term alone |
| TodoController.OwnerAndStatusFilter | server/src/main/java/umm3601/todo/TodoController.java:113-135 | a valid owner and a valid status give the owner regex followed by the status equality |
| TodoController.CompleteRequest | server/src/test/java/umm3601/todo/TodoControllerSpec.java:276-293 | `status=complete` filters on `status == true`; no parameters give the empty document |
| TodoController.OwnerAndStatusRequest | server/src/test/java/umm3601/todo/TodoControllerSpec.java:327-347 | `owner=Egg&status=incomplete` gives the regex on Egg followed by `status == false` |
| TodoController.ConstructSortingOrder | server/src/main/java/umm3601/todo/TodoController.java:140-150 | the sort document is always empty, whatever the request |
| TodoController.LegalObjectId | server/src/main/java/umm3601/todo/TodoController.java:66-70 | an id is accepted as an object id exactly when it has 24 characters, each lower-casing to a lower-case hexadecimal digit |
| TodoController.FindById | server/src/main/java/umm3601/todo/TodoController.java:67 | the first todo whose id equals the requested one up to case; none exactly when no todo has it |
| TodoController.Context.constructor | server/src/main/java/umm3601/todo/TodoController.java:62-63 | a fresh context names the id and has no body or status set |
| TodoController.GetTodo | server/src/main/java/umm3601/todo/TodoController.java:62-77 | an id that is not an object id throws 400; a legal unknown id throws 404, and either throw leaves the response untouched; otherwise the found todo becomes the body with status 200 |
| TodoController.ObjectIdExamples | server/src/test/java/umm3601/todo/TodoControllerSpec.java:349-383 | `bad` is not an object id; `588935f5c668650dc77df581` is |
| TodoController.FoundIdIsLegal | server/src/main/java/umm3601/todo/TodoController.java:67-75 | a todo found by a legal id has a legal id equal to the request's up to case |
| TodoController.Unsigned | server/src/main/java/umm3601/todo/TodoController.java:223 | the `x` conversion reads a byte as its unsigned value modulo 256 |
| TodoController.FormatByte | server/src/main/java/umm3601/todo/TodoController.java:223 | `%02x` gives exactly two lower-case hexadecimal digits |
| TodoController.ParseFormatByte | server/src/main/java/umm3601/todo/TodoController.java:223 | the two digits of a byte read back as that byte |
| TodoController.HexOfLayout | server/src/main/java/umm3601/todo/TodoController.java:221-225 | the rendering has two digits per byte, byte `i` at positions `2i` and `2i+1` |
| TodoController.HexOfDigits | server/src/main/java/umm3601/todo/TodoController.java:221-225 | the rendering holds only lower-case hexadecimal digits |
| TodoController.HexOfRoundTrip | server/src/main/java/umm3601/todo/TodoController.java:221-225 | reading the rendering back gives the digest's bytes |
| TodoController.HexOfInjective | server/src/main/java/umm3601/todo/TodoController.java:221-225 | different digests render as different text |
| TodoController.Md5 | server/src/main/java/umm3601/todo/TodoController.java:217-226 | the loop's result is the hex rendering of the digest of the lower-cased text |
| TodoController.Md5IgnoresCase | server/src/main/java/umm3601/todo/TodoController.java:219 | texts equal up to case hash alike, to twice as many digits as the digest has bytes |
| AddTodo.ErrorKey | client/src/app/todos/add-todo.component.ts:54-83 | `required`, `minLength`, `maxLength` and `pattern` report under `required`, `minlength`, `maxlength` and `pattern`, a different key for each kind |
| AddTodo.Fails | client/src/app/todos/add-todo.component.ts:54-83 | only `required` rejects the empty text, and it rejects nothing else |
| AddTodo.Errors | client/src/app/todos/add-todo.component.ts:54-83 | `Validators.compose` reports exactly the keys of the validators that reject the value |
| AddTodo.LengthErrors | client/src/app/todos/add-todo.component.ts:54-68 | a required, min- and max-length field reports `required` when empty, otherwise the one bound it breaks, if any |
| AddTodo.OwnerRule | client/src/app/todos/add-todo.component.ts:54-62 | the owner is accepted exactly when it has 2 to 50 characters, with the matching error key otherwise |
| AddTodo.BodyRule | client/src/app/todos/add-todo.component.ts:64-68 | the body is accepted exactly when it has 5 to 200 characters, with the matching error key otherwise |
| AddTodo.StatusRule | client/src/app/todos/add-todo.component.ts:72-75 | the status is accepted exactly when it is `complete` or `incomplete`; empty reports `required`, anything else `pattern` |
| AddTodo.CategoryRule | client/src/app/todos/add-todo.component.ts:79-83 | the category is accepted exactly when it has 3 to 30 characters, with the matching error key otherwise |
| AddTodo.TodoForm | client/src/app/todos/add-todo.component.ts:52-84 | the form has the four controls, each under its own validators |
| AddTodo.FieldRule | client/src/app/todos/add-todo.component.ts:54-83 | each field's validators accept exactly the texts that field accepts, and reject the empty text as `required` only |
| AddTodo.FormRule | client/src/app/todos/add-todo.component.ts:52-84 | the form is valid exactly when all four fields obey their rules |
| AddTodo.FreshFormInvalid | client/src/app/todos/add-todo.component.ts:54-79 | every field starts empty and reports only `required`, so a fresh form is invalid |
| AddTodo.AsWrittenMessagesOf | client/src/app/todos/add-todo.component.ts:21-44 | the declared table has one entry per validator; owner, body and category entries sit under their validators' keys in order; the first status entry sits under `status` |
| AddTodo.ValidationMessages | client/src/app/todos/add-todo.component.ts:21-44 | the table holds, for each of the four fields, the entries as declared |
| AddTodo.DeclaredTableMessages | client/src/app/todos/add-todo.component.ts:21-44 | in the declared table, a validator has an entry under its key exactly when it is not the status pattern validator |
| AddTodo.MessagesOf | client/src/app/todos/add-todo.component.ts:34-37 | the corrected table equals the declared one except that the status pattern message is filed under `pattern` |
| AddTodo.Shown | client/src/app/todos/add-todo.component.ts:21-44 | the messages shown are those whose key is among the errors; none exactly when no entry's key is an error |
| AddTodo.LengthMessagesMatchBounds | client/src/app/todos/add-todo.component.ts:22-43 | each min- or max-length message is filed under its validator's key and mentions that validator's bound (these entries are the same in the declared and the corrected table) |
| AddTodo.OwnerMessageKinds | client/src/app/todos/add-todo.component.ts:22-26 | in the corrected table, as in the declared one, the owner's three messages are filed under its three validators' keys, in order |
| AddTodo.BodyMessageKinds | client/src/app/todos/add-todo.component.ts:28-32 | in the corrected table, as in the declared one, the body's three messages are filed under its three validators' keys, in order |
| AddTodo.CategoryMessageKinds | client/src/app/todos/add-todo.component.ts:39-43 | in the corrected table, as in the declared one, the category's three messages are filed under its three validators' keys, in order |
| AddTodo.StatusMessageKinds | client/src/app/todos/add-todo.component.ts:34-37 | in the corrected table only, with the pattern message filed under `pattern`, both status validators have a message |
| AddTodo.MessageForEveryValidator | client/src/app/todos/add-todo.component.ts:21-83 | in the corrected table only, every validator of every field has a message under the key it reports; the declared table lacks one for the status pattern |
| AddTodo.EveryErrorHasMessage | client/src/app/todos/add-todo.component.ts:21-83 | with the corrected table only, a field shows at least one message exactly when it has an error |
| AddTodo.StatusPatternMessageUnreachable | client/src/app/todos/add-todo.component.ts:35 | as written, the status `done` fails only the pattern, and no status message is shown for it |
| AddTodo.AddTodoComponent.constructor | client/src/app/todos/add-todo.component.ts:13-47 | before initialisation there is no form, and the component holds the message table as declared at lines 21-44 |
| AddTodo.AddTodoComponent.CreateForms | client/src/app/todos/add-todo.component.ts:49-86 | after the call the form exists, with the four empty controls under their validators, and it is invalid |

## Left out

- HTTP, `Observable`s and JSON encoding are not modelled. `getTodos` and `getTodoById` yield the parameters and the URL they would send.
- Query parameters with several values are not modelled. The server model reads the first value of each key.
- The `limit` field is modelled as an integer. A `NaN` or a fractional number is not modelled.
- Strings.IntToString: writes every integer in plain decimal. JavaScript writes magnitudes of 10^21 and above in exponent notation (`1e+21`), and cannot hold most integers above 2^53 exactly. Neither is modelled.
- AddTodo.Fails: counts a text's length in Unicode scalar values. Angular's `minLength` and `maxLength` count UTF-16 code units, so a text with characters outside the Basic Multilingual Plane (an emoji, say) is longer there than in the model.
- Case mapping covers ASCII letters only, for both `toLowerCase` and `equalsIgnoreCase`. Unicode case folding is not modelled.
- The regular-expression engine is a parameter `matches(text, pattern, options)`. Mongo's query execution is reduced to `Satisfies` over that parameter.
- The server's `getTodos` (find, sort, collect into a list) is not part of this model. Its two helpers, the filter and the sort order, are.
- `TodoController.FindById`: the database lookup is a search of a sequence of todos. An object id is taken to be 24 hexadecimal digits in either case, compared ignoring case.
- The MD5 digest and the UTF-8 encoding are a function parameter. `NoSuchAlgorithmException` cannot arise in the model.
- `TodoController.ParseHex` is a reference inverse for the round-trip lemmas, not part of the source. It reads pairs from the back and ignores a lone leading digit.
- `TodoController.HexOfRoundTrip` does not state the rendering's length. `TodoController.HexOfLayout` states it.
- The commented-out sort code in `constructSortingOrder` is dead code and is not modelled.
- `submitForm`, `ngOnInit` and the snack bar and router of `AddTodoComponent` are not modelled. `submitForm` calls an `addTodo` that the service does not define. `ngOnInit` only calls `createForms`.
- The Angular template that displays the messages is not part of this model. `Shown` states the usual rule: show each entry whose key the control reports.
- The todo-list component, its template and the end-to-end tests are not part of this model.

## Findings

| source | as written | input that shows it | evidently intended | confidence | as-written member | corrected member |
|---|---|---|---|---|---|---|
| client/src/app/todos/add-todo.component.ts:35 | the status message is filed under the key `status`, but `Validators.pattern` reports its error under `pattern`, so the message is never shown | status `done`: its only error is `pattern`, and no entry of the status table has that key | the entry's type is `pattern` | medium; not executed (the template that looks the keys up is not part of this model) | AddTodo.StatusPatternMessageUnreachable | AddTodo.EveryErrorHasMessage |
