# Commerce checkout, attribute value editing and payment type definitions — a Dafny model

This project models three small pieces of logic in a Drupal Commerce code base:

- **The checkout step sequencer** (`CheckoutFlowBase`, module `CheckoutFlow` in
  `checkout_flow.dfy`). A checkout flow is an ordered list of distinct step ids,
  and each step has an ordered list of panes. The plugin computes the first, last,
  next and previous step the way the PHP does it, with `array_search`, `array_slice`
  and `key`. So it keeps the edge behaviour: there is no next step after the last
  one; "previous" of the first step, or of a step that is not listed, wraps to the
  last step; and "next" of an unlisted step is the step at index 1. Building the
  form skips forward past steps that have no visible pane. Pane visibility is a
  predicate passed in. The default pane is always visible, and the login pane is
  visible only to anonymous customers. The model also covers the
  Previous/Next/Cancel buttons, the ordered validate and submit handler lists of
  the Next button, and the redirect targets of the submit and previous handlers.
- **The attribute value overview form** (`ProductAttributeOverviewForm`, module
  `AttributeOverview` in `attribute_overview.dfy`). The form keeps a value map in
  form state. It maps each row index to a saved value id or to `'_new'`. It also
  keeps a delete queue. "Add" and "Remove" edit these two in place. Building the
  form (re)initialises an empty map and derives each row's operation, default
  entity and weights. Submitting deletes the queued values and then saves every
  row with its weight.
- **The payment type definition processing** (`PaymentTypeManager::processDefinition`,
  module `PaymentType` in `payment_type.dfy`). The declared defaults are merged
  under a definition, `id` is forced to the plugin id, and a definition with an
  empty `label` (in PHP's `empty()` sense) is rejected.

`wrappers.dfy` holds the `Option` type shared by the three modules. `None` stands
for PHP's NULL.

The state the source changes in place is modelled as classes. `$this->step` is a
field of `CheckoutFlow.CheckoutFlowBase`. `value_map` and `delete_queue` are
fields of `AttributeOverview.OverviewForm`. The by-reference `$definition` is the
`processed` out-parameter of `PaymentType.ProcessDefinition`, which is returned on
the exception path too.

## Model

| member | source | states |
|---|---|---|
| `CheckoutFlow.ArraySearch` | modules/checkout/src/Plugin/Commerce/CheckoutFlow/CheckoutFlowBase.php:269-270 | array_search over the step keys gives the index of the first occurrence, and FALSE exactly when the step is not listed |
| `CheckoutFlow.ArraySlice` | modules/checkout/src/Plugin/Commerce/CheckoutFlow/CheckoutFlowBase.php:266-277 | array_slice: empty when the offset is past the end; otherwise it starts at the offset, or for a negative offset that many keys from the end (clipped at 0), and runs for the length or to the end, whichever is shorter |
| `CheckoutFlow.Key` | modules/checkout/src/Plugin/Commerce/CheckoutFlow/CheckoutFlowBase.php:266-281 | key() is NULL exactly for an empty array and otherwise the first key |
| `CheckoutFlow.GetStep` | modules/checkout/src/Plugin/Commerce/CheckoutFlow/CheckoutFlowBase.php:259-283 | "last" is the final key. "next" is the key at index i+1 (NULL after the last step, index 1 for an unlisted step). "previous" is the key at i-1, but the final key for the first step or an unlisted one. "first" and any other position name give the first key |
| `CheckoutFlow.FirstStep` | modules/checkout/src/Plugin/Commerce/CheckoutFlow/CheckoutFlowBase.php:290-292 | getFirstStep is the step at index 0, NULL for an empty flow |
| `CheckoutFlow.LastStep` | modules/checkout/src/Plugin/Commerce/CheckoutFlow/CheckoutFlowBase.php:299-301 | getLastStep is the final step, NULL for an empty flow |
| `CheckoutFlow.NextStep` | modules/checkout/src/Plugin/Commerce/CheckoutFlow/CheckoutFlowBase.php:308-310 | getNextStep is the step after the current one (NULL after the final step), and the step at index 1 from an unlisted step |
| `CheckoutFlow.PreviousStep` | modules/checkout/src/Plugin/Commerce/CheckoutFlow/CheckoutFlowBase.php:317-319 | getPreviousStep is the step before the current one, and the final step from the first or an unlisted step |
| `CheckoutFlow.HasPrevious` | modules/checkout/src/Plugin/Commerce/CheckoutFlow/CheckoutFlowBase.php:211 | the Previous button exists iff the step is neither the first nor the final step; on an empty flow iff the step is not the empty id (NULL loosely equals only that) |
| `CheckoutFlow.HasNext` | modules/checkout/src/Plugin/Commerce/CheckoutFlow/CheckoutFlowBase.php:221 | the Next button and Cancel link exist iff the step is not the final step; on an empty flow iff the step is not the empty id |
| `CheckoutFlow.NextButtonHasTarget` | modules/checkout/src/Plugin/Commerce/CheckoutFlow/CheckoutFlowBase.php:221-243 | on a listed step, Next exists iff the step is not the final one, and then "next" is never NULL |
| `CheckoutFlow.PreviousButtonNeverWraps` | modules/checkout/src/Plugin/Commerce/CheckoutFlow/CheckoutFlowBase.php:211-219 | on a listed step, Previous exists iff the step is neither the first nor the final one, and then "previous" is the real predecessor (no wrap-around) |
| `CheckoutFlow.UnlistedStepButtons` | modules/checkout/src/Plugin/Commerce/CheckoutFlow/CheckoutFlowBase.php:211-243 | on an unlisted step of a non-empty flow both buttons exist; Previous leads to the final step and Next to the step at index 1 |
| `CheckoutFlow.VisiblePanes` | modules/checkout/src/Plugin/Commerce/CheckoutFlow/CheckoutFlowBase.php:171-175 | the kept panes are exactly the step's panes that are visible |
| `CheckoutFlow.VisiblePanesConcat` | modules/checkout/src/Plugin/Commerce/CheckoutFlow/CheckoutFlowBase.php:171-175 | the filter keeps pane order: the visible panes of two consecutive runs of panes are those of the first followed by those of the second |
| `CheckoutFlow.CollectVisiblePanes` | modules/checkout/src/Plugin/Commerce/CheckoutFlow/CheckoutFlowBase.php:169-175 | the foreach collects the visible panes of a step, in pane order |
| `CheckoutFlow.FirstVisibleFrom` | modules/checkout/src/Plugin/Commerce/CheckoutFlow/CheckoutFlowBase.php:177-181 | the first index at or after a position whose step has a visible pane, or none when no step from there on has one; every step passed over has none |
| `CheckoutFlow.Settled` | modules/checkout/src/Plugin/Commerce/CheckoutFlow/CheckoutFlowBase.php:167-184 | the step the skipping settles on has a visible pane; when it differs from the start, the start and every step in between had none |
| `CheckoutFlow.SearchDistinct` | modules/checkout/src/Plugin/Commerce/CheckoutFlow/CheckoutFlowBase.php:269-270 | in a list of distinct step ids, array_search finds each step at its own index |
| `CheckoutFlow.NextAfterSearchIndex` | modules/checkout/src/Plugin/Commerce/CheckoutFlow/CheckoutFlowBase.php:268-272 | when a step has a successor, "next" is exactly the step one index past its array_search position |
| `CheckoutFlow.SkipStep` | modules/checkout/src/Plugin/Commerce/CheckoutFlow/CheckoutFlowBase.php:177-181 | one skip moves to the step one index further on, which exists and settles on the same step |
| `CheckoutFlow.SettlesOnNextVisible` | modules/checkout/src/Plugin/Commerce/CheckoutFlow/CheckoutFlowBase.php:177-181 | a step without a visible pane followed by a step with one settles on that following step |
| `CheckoutFlow.RunOffRestartsAtIndexOne` | modules/checkout/src/Plugin/Commerce/CheckoutFlow/CheckoutFlowBase.php:177-181 | from the NULL step reached by running off the end, "next" is the step at index 1, and the skipping settles on the first step from index 1 with a visible pane, if there is one |
| `CheckoutFlow.RunOffSettlesBackwards` | modules/checkout/src/Plugin/Commerce/CheckoutFlow/CheckoutFlowBase.php:177-181 | with steps a, b, c where only b has a visible pane, starting at c runs off the end and the restart settles on b, before the starting step |
| `CheckoutFlow.DefaultVisibilityNeverSkips` | modules/checkout/src/Plugin/Commerce/CheckoutPane/CheckoutPaneBase.php:24-27 | with the default always-visible panes, a step that has panes is never skipped |
| `CheckoutFlow.LoginVisibility` | modules/checkout/src/Plugin/Commerce/CheckoutPane/Login.php:68-70 | the login pane is visible iff the customer is anonymous; every other pane is always visible |
| `CheckoutFlow.LoginHidden` | modules/checkout/src/Plugin/Commerce/CheckoutPane/Login.php:68-70 | for a logged-in customer a step holding only the login pane shows no pane |
| `CheckoutFlow.OtherPaneVisible` | modules/checkout/src/Plugin/Commerce/CheckoutPane/Login.php:68-70 | for a logged-in customer a step with any pane besides the login pane shows at least one pane |
| `CheckoutFlow.LoginStepKeptWhenAnonymous` | modules/checkout/src/Plugin/Commerce/CheckoutPane/Login.php:68-70 | a step holding only the login pane is kept as it is for an anonymous customer |
| `CheckoutFlow.LoginStepSkippedWhenLoggedIn` | modules/checkout/src/Plugin/Commerce/CheckoutPane/Login.php:68-70 | a step holding only the login pane is skipped for a logged-in customer, and the form settles on the next step when that step has a pane besides the login pane |
| `CheckoutFlow.CheckoutFlowBase.BuildFormPanes` | modules/checkout/src/Plugin/Commerce/CheckoutFlow/CheckoutFlowBase.php:167-184 | the step advances to the settled step, and the result is that step's visible panes in order, never empty |
| `CheckoutFlow.NextHandlers` | modules/checkout/src/Plugin/Commerce/CheckoutFlow/CheckoutFlowBase.php:231-237 | the Next button's validate list is each pane's validateForm in pane order followed by the form's own, and likewise for the submit list |
| `CheckoutFlow.CheckoutFlowBase.Actions` | modules/checkout/src/Plugin/Commerce/CheckoutFlow/CheckoutFlowBase.php:207-245 | Previous iff not first and not last. Next and Cancel iff not last. Next's validate and submit lists hold each pane's handler in pane order, then the form's own handler |
| `CheckoutFlow.CheckoutFlowBase.BuildForm` | modules/checkout/src/Plugin/Commerce/CheckoutFlow/CheckoutFlowBase.php:118-130 | the panes and buttons follow the settled step. The panes are never empty. Previous runs `::previousForm`. Cancel exists exactly with Next and leads to the cart page. The Next handlers come from the panes of the originally requested step. The title names the settled step |
| `CheckoutFlow.CheckoutFlowBase.SubmitForm` | modules/checkout/src/Plugin/Commerce/CheckoutFlow/CheckoutFlowBase.php:143-156 | redirects to the step after the current one (NULL after the final step) |
| `CheckoutFlow.CheckoutFlowBase.PreviousForm` | modules/checkout/src/Plugin/Commerce/CheckoutFlow/CheckoutFlowBase.php:189-194 | redirects to the step before the current one, wrapping to the final step from the first |
| `AttributeOverview.ValueOf` | modules/product/src/Form/ProductAttributeOverviewForm.php:111 | `$values[$id]` is the saved value with that id, and NULL exactly when no saved value has it |
| `AttributeOverview.InitialMap` | modules/product/src/Form/ProductAttributeOverviewForm.php:66-70 | the initial map sends index k to the id of the k-th saved value |
| `AttributeOverview.Lookup` | modules/product/src/Form/ProductAttributeOverviewForm.php:197 | `$value_map[$index]` is NULL exactly when no entry has that index; otherwise it is that entry's reference |
| `AttributeOverview.NextIndex` | modules/product/src/Form/ProductAttributeOverviewForm.php:186 | the appended index is greater than every existing index |
| `AttributeOverview.Added` | modules/product/src/Form/ProductAttributeOverviewForm.php:184-189 | appending keeps the map's indexes strictly increasing |
| `AttributeOverview.Removed` | modules/product/src/Form/ProductAttributeOverviewForm.php:198 | after unset, the entries are exactly the old entries whose index differs, still in order |
| `AttributeOverview.RemovedAbsent` | modules/product/src/Form/ProductAttributeOverviewForm.php:198 | unsetting an index that is not in the map changes nothing |
| `AttributeOverview.Queued` | modules/product/src/Form/ProductAttributeOverviewForm.php:200-205 | the queue grows by exactly the removed id, unless the row was '_new', which leaves it unchanged; a missing row queues NULL |
| `AttributeOverview.AddedLookup` | modules/product/src/Form/ProductAttributeOverviewForm.php:184-189 | after Add, only the new index holds a '_new' entry; every other index has its old entry, and the new index was free before |
| `AttributeOverview.RemovedLookup` | modules/product/src/Form/ProductAttributeOverviewForm.php:195-199 | after Remove, only the removed index is cleared; every other index keeps its entry (no renumbering) |
| `AttributeOverview.RemoveEveryRow` | modules/product/src/Form/ProductAttributeOverviewForm.php:194-207 | removing every row in turn empties the map and queues the id of every saved row in row order |
| `AttributeOverview.RemoveAllThenRebuild` | modules/product/src/Form/ProductAttributeOverviewForm.php:66-70 | after every row of a fresh map is removed, the map is empty, so the rebuild shows all saved values again, while all their ids are already queued for deletion |
| `AttributeOverview.BuildRows` | modules/product/src/Form/ProductAttributeOverviewForm.php:93-115 | '_new' rows get op add and default weight = index; saved rows get op edit, the saved value as default and its weight; `#weight` is the user input weight or NULL; a saved id without a value fails |
| `AttributeOverview.OverviewForm.BuildForm` | modules/product/src/Form/ProductAttributeOverviewForm.php:61-115 | an empty map is re-initialised from the saved values; a non-empty one is left as it is; one row per entry as above |
| `AttributeOverview.OverviewForm.AddValueSubmit` | modules/product/src/Form/ProductAttributeOverviewForm.php:184-189 | exactly one '_new' entry is appended after all others; earlier entries and the delete queue are unchanged |
| `AttributeOverview.OverviewForm.RemoveValueSubmit` | modules/product/src/Form/ProductAttributeOverviewForm.php:194-207 | the triggering index is unset and the queue grows by its id unless it was '_new' |
| `AttributeOverview.OverviewForm.SubmitForm` | modules/product/src/Form/ProductAttributeOverviewForm.php:212-226 | the queued values are deleted (one call, only if the queue is non-empty) before any save; each submitted row's entity is then saved with its submitted weight, in the order the rows are submitted |
| `PaymentType.IsEmpty` | modules/payment/src/PaymentTypeManager.php:62 | empty() holds exactly for NULL, FALSE, 0, "", "0" and the empty array |
| `PaymentType.Message` | modules/payment/src/PaymentTypeManager.php:63 | the message starts with "The payment_type ", ends with " property." and is 44 characters longer than the plugin id and property together |
| `PaymentType.Processed` | modules/payment/src/PaymentTypeManager.php:57-60 | `id` is the plugin id whatever was supplied; every other key of the definition keeps its value; a missing key falls back to the declared default |
| `PaymentType.FirstEmpty` | modules/payment/src/PaymentTypeManager.php:61-65 | the first required property that is empty, every earlier one being non-empty; none iff all are non-empty |
| `PaymentType.ProcessDefinition` | modules/payment/src/PaymentTypeManager.php:57-66 | the definition is replaced by its processed form even when the exception is raised; the exception is raised iff a required property is empty, and names the plugin and that property |
| `PaymentType.RejectedIffLabelEmpty` | modules/payment/src/PaymentTypeManager.php:61-64 | a payment type is rejected iff its own label is missing, NULL, FALSE, 0, "", "0" or an empty array, and then the label is the property named |
| `PaymentType.DefaultLabelRejected` | modules/payment/src/PaymentTypeManager.php:24-27 | a definition relying on the default empty label is rejected |
| `PaymentType.MessageNamesPluginAndProperty` | modules/payment/src/PaymentTypeManager.php:63 | the exception message contains the plugin id and then the property name |

## Left out

- The add-to-cart variation selection and line-item merging are not part of this model. The widget and cart manager that implement them are not among the modelled files, and the browser tests only assert on rendered HTML.
- Loading the checkout flow and its steps and panes through the flow manager (`getCheckoutFlow`, `getCheckoutFlowSteps`, `getCheckoutFlowStepPanes`) becomes the `Flow` value given to the plugin. A step that the flow does not configure has no panes.
- Each pane's own `buildForm`, `validateForm` and `submitForm`, the form render arrays, `t()` translation, `Url::fromRoute` and the redirect route name are not part of this model. The panes built are named by their ids, and the redirects by their target step.
- The order save in `submitForm` (CheckoutFlowBase.php:145-146) and the empty "checkout complete" branch are not modelled.
- `CheckoutFlow.CheckoutFlowBase.BuildFormPanes` requires that the skipping reaches a step with a visible pane (`CanSettle`). When no such step follows, the PHP moves `$this->step` to NULL. From NULL, `array_search` gives FALSE, so it restarts at the step at index 1 and settles on the first step from there that has a visible pane. That step can lie before the starting step. It recurses without end only when no step from index 1 on has a visible pane. The method does not model this run. `CheckoutFlow.RunOffRestartsAtIndexOne` and `CheckoutFlow.RunOffSettlesBackwards` state where it settles, taking NULL as the empty id with no panes.
- Step ids are compared as plain strings. PHP's loose `==` also equates numeric strings such as "1" and "01", and that is not modelled. Nor is the renumbering of integer keys: PHP stores numeric step ids such as "1" and "2" as integer keys, and `array_slice` without `preserve_keys` (CheckoutFlowBase.php:269-270 and 275-276) renumbers them from 0. For such ids, "next" and "previous" would then return 0 rather than the step id. The model treats every step id as a string key that keeps its name. The loose comparison of a step with a NULL first or last step (on an empty list) is modelled: NULL equals only the empty id.
- Pane visibility is a pure predicate on pane ids. The form state and the current user it reads in PHP become parameters of that predicate.
- The `uasort` of the value rows by weight (ProductAttributeOverviewForm.php:141) is not modelled. It orders the rendered table. It also fixes the order in which the Form API collects the submitted `values`, so it is the order in which `submitForm` saves. The model builds rows in value map order. `AttributeOverview.OverviewForm.SubmitForm` saves the submitted rows in the order it is given them. The model does not relate that order, or which rows are submitted, to the value map or to the weights.
- The "Add" row, the table header, the tabledrag settings, `Html::getUniqueId` and the remove button's name and AJAX callback are not modelled.
- The value storage calls in the overview form's `submitForm` are recorded as a list of calls. `loadMultiple` followed by `delete` is one `Delete` call on the queued ids. What the storage does with them is not modelled.
- The next index of `$value_map[] = '_new'` is taken as one past the largest index present. PHP's remembered next free index after an `unset` within the same request is not modelled.
- Value ids are never equal to `'_new'`. PHP 7's loose `0 == '_new'` would treat an id 0 as new, but saved entity ids start at 1.
- `AttributeOverview.BuildRows` models `getWeight()` on a NULL value (a saved id with no loaded value) as a failed build (`None`), not as the PHP fatal error it raises.
- The rest of the parent plugin manager's `processDefinition` is not part of this model. Only the merge of `$defaults` under the definition is modelled; the class-name trimming is not. Plugin discovery, derivatives, caching and the translatable label wrapping are not modelled either.
- PHP floats are not among the modelled definition values, so `empty(0.0)` is not covered.
