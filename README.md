# Webflow color shade generator, modelled in Dafny

This project models the color shade generator of the Webflow Designer
extension `rebel_WebflowVariables`. The generator is
`createColorShadeVariables` in `src/webflow-api.ts`. Given a variable
collection, a base name, a base color, a number of lighter and darker shades
and a mixing percentage, it works in four stages:

- It creates a base color variable holding the literal color.
- It creates a chain of lighter shades named `<base>-L100`, `<base>-L200`, …
  Each shade is a `color-mix(in srgb, <binding of the previous one>, white p%)`
  custom value.
- It creates a second chain of darker shades named `<base>-D100`, … mixed with
  `black`. This chain is also rooted at the base.
- It stops at the first failure and keeps what it has already created.

The model also covers the helpers the generator uses:

- `createVariable` / `createColorVariable`: guard, create, notify;
- `getVariableCollectionById`: the lookup with its warning;
- `handleApiError`: the choice of the user-facing error message.

The Designer host (`webflow`) is an explicit store: class
`WebflowApi.Designer`. It holds:

- the known collection ids;
- the variables, a map from (collection id, name) to value;
- the order in which variables were created;
- the notifications shown.

Two pieces of host behaviour are fixed, read-only inputs:

- the text `getBinding()` returns for each variable (absent means null);
- the error the host throws, beyond a duplicate name, when it refuses to
  create a given variable.

Modules:

- `Wrappers`: `Option`.
- `Decimal`: decimal text of a natural number (`${n}`), its inverse, and
  injectivity.
- `ApiErrors`: the message `handleApiError` shows for an error. A thrown
  error is modelled by its `cause.tag` and `message`. Empty strings count as
  absent, as JavaScript truthiness does.
- `Host`: variable values, variable handles, notifications, bindings, and
  what a creation throws.
- `ShadeChain`: one run of the generator as functions of its request and of
  the host before the run, plus the lemmas about it. It gives the step order
  (base, L1..L, D1..D), the name and value of each step, and the first
  failing step (`Completed`). It also gives the variables, creation log and
  notices after the first k steps.
- `WebflowApi`: class `Designer` with the imperative methods. The
  generator's methods are proved to leave the store exactly as `ShadeChain`
  says.

## Model

| member | source | states |
|---|---|---|
| Decimal.NatToString | rebel_WebflowVariables/src/webflow-api.ts:368 | The decimal text of `i * 100` or `percentage` is non-empty, all digits, and has no leading zero. |
| Decimal.DigitsValueOfNatToString | rebel_WebflowVariables/src/webflow-api.ts:368 | Reading the decimal text back gives the number: a round trip. |
| Decimal.NatToStringInjective | rebel_WebflowVariables/src/webflow-api.ts:380 | Different numbers render to different texts. |
| ApiErrors.UserMessage | rebel_WebflowVariables/src/webflow-api.ts:27-52 | The message shown is never empty. |
| ApiErrors.RecoverTagOfUserMessage | rebel_WebflowVariables/src/webflow-api.ts:29-50 | If the message depends only on the tag, the tag can be read back from it. This covers a known tag's fixed message and an unknown tag with `"An error occurred: " + tag`. No tag gives the generic message, which names no tag. |
| ApiErrors.KnownTagIgnoresErrorMessage | rebel_WebflowVariables/src/webflow-api.ts:31-44 | For `DuplicateValue`, `ResourceMissing`, `InvalidTargetElement` and `Forbidden`, the error's own message never reaches the user. The message differs from the generic one. |
| ShadeChain.ShadeNameInjective | rebel_WebflowVariables/src/webflow-api.ts:368 | The base name, `-L${i*100}` and `-D${i*100}` name different steps differently. |
| ShadeChain.PlannedVariablesDistinct | rebel_WebflowVariables/src/webflow-api.ts:360-388 | The 1 + L + D variables of one run are pairwise distinct. |
| ShadeChain.PredecessorIndex | rebel_WebflowVariables/src/webflow-api.ts:363-364 | The variable each shade chains from is created earlier in the run. Lighter 1 and darker 1 chain from the base. |
| ShadeChain.Completed | rebel_WebflowVariables/src/webflow-api.ts:360-388 | The run's progress is at most 1 + L + D. Every step before it succeeds, and the step at it fails (when there is one). |
| ShadeChain.SucceededAt | rebel_WebflowVariables/src/webflow-api.ts:360-388 | Every step before the run's progress point succeeded. |
| ShadeChain.CompletedAtLeast | rebel_WebflowVariables/src/webflow-api.ts:360-388 | A run whose first k steps succeed gets at least k steps in. |
| ShadeChain.FirstFailureEndsRun | rebel_WebflowVariables/src/webflow-api.ts:369-374 | Fail-fast: after k successes, a failed binding lookup or creation ends the run with exactly k variables created. |
| ShadeChain.VarsAfterUnplanned | rebel_WebflowVariables/src/webflow-api.ts:360-388 | A variable the run does not create keeps the value it had before the run. |
| ShadeChain.VarsAfterPlanned | rebel_WebflowVariables/src/webflow-api.ts:360-388 | Each variable created so far holds the value its step computed: no rollback and no overwrite. |
| ShadeChain.CreationErrorDuringRun | rebel_WebflowVariables/src/webflow-api.ts:205-208 | Creating step k against the store as the run has left it throws what it would throw against the store before the run. The run never collides with itself. |
| ShadeChain.LogAfterAt | rebel_WebflowVariables/src/webflow-api.ts:360-388 | After k steps the creation log is the old log followed by the k step variables, step j at position j. |
| ShadeChain.LogAfterPrefix | rebel_WebflowVariables/src/webflow-api.ts:381-386 | A run stopped after m steps has logged exactly the first m creations of a longer run. Nothing after the failure is attempted. |
| ShadeChain.FullRun | rebel_WebflowVariables/src/webflow-api.ts:360-391 | When every step succeeds, exactly 1 + L + D variables are created and the run closes with the success notice. |
| ShadeChain.LogOrder | rebel_WebflowVariables/src/webflow-api.ts:360-388 | The log gains 1 + L + D entries in the order base, L100 .. L(100·L), D100 .. D(100·D). |
| ShadeChain.BaseOnlyRun | rebel_WebflowVariables/src/webflow-api.ts:367-391 | With L = D = 0 and a successful base, only the base is created, holding the literal base color. |
| ShadeChain.BaseFailureRun | rebel_WebflowVariables/src/webflow-api.ts:360-361 | A failed base creation creates nothing, tries no shade, and shows the host error's message. |
| ShadeChain.DuplicateBaseRun | rebel_WebflowVariables/src/webflow-api.ts:360-361 | When the base name is already taken in the collection, the base creation fails with the duplicate-name error: nothing is created, no shade is tried, and the user sees "A variable with this name already exists. Please choose a unique name." |
| ShadeChain.LighterShadeValue | rebel_WebflowVariables/src/webflow-api.ts:367-376 | Lighter shade i holds `color-mix(in srgb, b, white p%)`. Here b is the non-empty binding of lighter shade i - 1, or of the base for i = 1. |
| ShadeChain.DarkerShadeValue | rebel_WebflowVariables/src/webflow-api.ts:364-388 | Darker shade i holds the mix with `black` of darker shade i - 1's binding. Darker shade 1 chains from the base, never from a lighter shade. |
| WebflowApi.Designer.HandleApiError | rebel_WebflowVariables/src/webflow-api.ts:27-52 | Shows exactly one error notice with the chosen message and changes no variable. |
| WebflowApi.Designer.GetVariableCollectionById | rebel_WebflowVariables/src/webflow-api.ts:134-145 | Returns the collection exactly when the id is known. Otherwise it returns None and adds the "not found" warning. |
| WebflowApi.Designer.CreateVariable | rebel_WebflowVariables/src/webflow-api.ts:190-209 | With no collection: the error notice, None, and no store change. Otherwise the variable is created with a success notice. If the host throws, the store is unchanged, the error's message is shown, and None is returned. |
| WebflowApi.Designer.CreateColorVariable | rebel_WebflowVariables/src/webflow-api.ts:211-212 | `CreateVariable` with the type name "Color". |
| WebflowApi.Designer.CreateShade | rebel_WebflowVariables/src/webflow-api.ts:368-375 | One loop pass either creates shade i, as the next step of the run, or ends the run exactly where it fails. A missing or empty binding counts as a failure. |
| WebflowApi.Designer.CreateShadeBranch | rebel_WebflowVariables/src/webflow-api.ts:367-388 | Either loop: succeeds exactly when all its shades fit before the run's first failure. Then the store is as after those steps; otherwise the store is as the stopped run leaves it. |
| WebflowApi.Designer.CreateColorShadeVariables | rebel_WebflowVariables/src/webflow-api.ts:344-396 | An unknown collection gives false with only the warning. Otherwise the result is true exactly when all 1 + L + D steps succeed. The variables, log and notices are those of the run up to its first failure, with no rollback. |

## Left out

- Console logging (`console.error`) is not modelled; it is observation only.
- The host calls are foreign code. `webflow.getVariableCollectionById`, `collection.createColorVariable`, `variable.getBinding` and `webflow.notify` are modelled only through the store and the two fixed behaviours.
- A host call that throws where the model has no error value is not modelled. This covers `getVariableCollectionById`'s own catch and the generator's outer catch (lines 392-395), which `getBinding` throwing would reach.
- async/await is not modelled. The code awaits one call at a time, so a sequential method has the same effect.
- Counts and the percentage are natural numbers. Fractional, negative or NaN JavaScript numbers are not modelled.
- The color semantics of `color-mix` (sRGB blending) are not modelled; only the text of the expression is.
- The host's own text for the duplicate-name error is unknown. The model's duplicate error carries the `DuplicateValue` tag and no message, and a known tag's message never reaches the user.
- The other variable types (`createSizeVariable` and so on) and the remaining one-line wrappers in webflow-api.ts only forward to the host. They are not part of this model.
- `src/index.tsx` (the React UI and form handler) is not part of this model.
- `variables_api.swift` and `org_api-docs.swift` are not part of this model. They hold spreadsheet scripts, documentation snippets and CSS, not executable logic of the extension.
- The two `for` loops of the generator are one method, `CreateShadeBranch`, with the branch (lighter or darker) as a parameter. The body of one pass is `CreateShade`.
- The order of the host's checks is not modelled. The model assumes the host reports a duplicate name before any other refusal for the same variable. The source fixes no such order; it only passes on whatever the host throws (lines 205-208).
- Names and values match the source only while `i * 100` and `percentage` are safe integers (below 2^53). JavaScript renders numbers as doubles, so `${1e21}` is `1e+21`, not the full decimal. Beyond 2^53, `i++` at line 367 stops growing and the loop never ends, while the model's loop does. The intended percentage range, 1 to 100, is well inside the safe range.
