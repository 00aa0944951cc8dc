# Counter app: the context-based counter container

This project models the counter page of `alx-project-0x06` in Dafny and proves
what its counter promises.

- `CountProvider` holds one number in a state cell that starts at 0. It offers
  two operations. `increment` adds one. `decrement` subtracts one but stops at
  zero, silently, without an error.
- `useCount` hands a component the provider's context. When the component is
  not inside a provider, it throws instead.
- The page shows a message derived from a count: one text at zero, another
  at every other multiple of ten, and nothing otherwise. The page applies it
  to the count it reads from its Redux store; here it is a pure function of
  any count.

The model is in two files:

- `wrappers.dfy` (module `Wrappers`): the `Option` and `Result` datatypes.
- `counter_app.dfy` (module `CounterApp`):
  - The two updater functions that the provider passes to `setCount`
    (`Incremented`, `Decremented`).
  - The provider as a class whose `count` field is the state cell; its
    methods assign `count := updater(count)`.
  - `UseCount` over an optional provider.
  - `MessageFor`.
  - A history of calls to the provider's `increment` and `decrement`
    (`Action`, `Run`) for the properties about every sequence of calls;
    `CountProvider.Press` ties one call on a provider to one `Step` of it.

The count is a mathematical integer. JavaScript's `%` truncates toward zero
while Dafny's is Euclidean, but the page only tests whether the remainder is
zero, and that test agrees for both operators on every integer (in JavaScript
`-10 % 10` is `-0`, and `-0 === 0` holds).

## Model

| member | source | states |
|---|---|---|
| `CounterApp.Incremented` | alx-project-0x06/pages/counter-app.tsx:17 | the increment updater yields a value exactly one above its input |
| `CounterApp.Decremented` | alx-project-0x06/pages/counter-app.tsx:18 | the decrement updater never yields a negative value; above zero it yields one less, at or below zero it yields 0 (not the input) |
| `CounterApp.CountProvider.constructor` | alx-project-0x06/pages/counter-app.tsx:15 | a new provider's cell holds 0 and satisfies the non-negativity invariant |
| `CounterApp.CountProvider.Increment` | alx-project-0x06/pages/counter-app.tsx:17 | the cell becomes exactly its old value plus one, and the non-negativity invariant is preserved |
| `CounterApp.CountProvider.Decrement` | alx-project-0x06/pages/counter-app.tsx:18 | the cell becomes old−1 when old > 0 and 0 otherwise; afterwards the invariant holds from any state |
| `CounterApp.CountProvider.Press` | alx-project-0x06/pages/counter-app.tsx:17-18 | one call of the provider's increment or decrement moves its count by exactly one `Step` of the history model, and keeps the invariant |
| `CounterApp.UseCount` | alx-project-0x06/pages/counter-app.tsx:29-37 | fails with "useCount must be within a Count Provider" exactly when no provider is present, and otherwise returns the present provider itself |
| `CounterApp.MessageFor` | alx-project-0x06/pages/counter-app.tsx:51 | "No clicks yet" iff the count is 0; "on fire" iff the count is non-zero with remainder 0 by 10; empty iff neither; the three cases are exclusive and cover every count |
| `CounterApp.MessageOnFireIff` | alx-project-0x06/pages/counter-app.tsx:51 | the "on fire" message appears exactly when the count is 10·k for some non-zero integer k |
| `CounterApp.TenClicksOnFire` | alx-project-0x06/pages/counter-app.tsx:51 | ten increments from 0 reach a count whose message is "on fire"; nine and eleven increments reach counts with no message; no increments leave "No clicks yet" |
| `CounterApp.RunNonNegative` | alx-project-0x06/pages/counter-app.tsx:17-18 | from any non-negative count, every sequence of increments and decrements leaves the count non-negative |
| `CounterApp.ReachableNonNegative` | alx-project-0x06/pages/counter-app.tsx:15-18 | every count reached from the initial 0 by any sequence of increments and decrements is non-negative (with `Press`, this covers every count a provider reaches) |
| `CounterApp.IncrementsAdd` | alx-project-0x06/pages/counter-app.tsx:17 | N increments from v give exactly v + N |
| `CounterApp.RunWithoutDecrements` | alx-project-0x06/pages/counter-app.tsx:17 | a history with no decrement adds its length to the count |
| `CounterApp.DecrementsReachFloor` | alx-project-0x06/pages/counter-app.tsx:18 | at least `count` decrements from `count` >= 0 leave 0, so any number of decrements at 0 leave 0 |
| `CounterApp.IncrementThenDecrement` | alx-project-0x06/pages/counter-app.tsx:17-18 | an increment directly followed by a decrement changes nothing, anywhere in a history from a non-negative count |
| `CounterApp.RunBounds` | alx-project-0x06/pages/counter-app.tsx:17-18 | after any history from count >= 0, the count lies between count + #increments − #decrements and count + #increments: the clamp only ever raises it |

## Left out

- The Redux store that the page component itself reads and dispatches to (`useSelector`, `useAppDispatch` and the `increment`/`decrement` action creators from `@/store/store`): the store's reducer is not part of this model, so its behaviour cannot be stated from source.
- React's `useState`, `createContext` and `useContext`, re-rendering and subscriber notification: these are framework behaviour. The state cell is modelled directly as the `count` field, and the context lookup as an `Option`.
- The context value's `increment` and `decrement` closures are modelled as the class's methods; the context itself is the provider object.
- The message on line 51 is applied by the page to the Redux count it reads on line 41, not to a provider's count; the page never mounts or reads `CountProvider`. `MessageFor` is a pure function of a count, and applying it to counts the provider reaches (`TenClicksOnFire`) is an illustration, not something the page does.
- JSX rendering, styling, the buttons, the count display and the footer text (counter-app.tsx lines 39-83 apart from the message on line 51): presentation only.
- `alx-project-0x05/components/layouts/Header.tsx`, `alx-project-0x05/pages/_app.tsx` and `alx-project-0x05/components/layouts/Layout.tsx`: page layout and navigation links, with no logic.
- JavaScript `number` semantics: the count is an unbounded integer; IEEE double overflow and precision limits are not modelled.
