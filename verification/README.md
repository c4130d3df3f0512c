# Provisioning service: a verified model

This project models the logic of an OpenWiFi provisioning service and proves properties of it: how the
configuration of an access point is put together, how serial numbers are indexed, how the requests change the
tables, how the tables are repaired at start-up, what a user may see and how the tree of it is built, how jobs are scheduled and
fan out over the devices of a venue, and two small exact pieces, CIDR matching and a ring buffer.
`dafny verify dfyconfig.toml` checks all of it.

## How the model is laid out

| module | what it models |
|---|---|
| `Json`, `VariableExpansion` | documents and the expansion of `__variableBlock` and `__radiusEndpoint` |
| `ExpansionMeaning` | what an expanded document holds under each name, read off a list of writes |
| `ApConfig` | collecting configuration elements by weight and choosing one per section |
| `HexText`, `SerialNumberCache` | the two sorted vectors of serial numbers and their queries |
| `Tables`, `Handlers`, `Provisioning` | the records, the requests as steps on all tables, and the class whose methods run them |
| `Placement`, `SubscriberDevices`, `Hierarchy`, `Signups` | what holds over every run of requests |
| `Memberships`, `Guarantees` | how lists change when something moves, what a caller gets from each request, and all invariants together |
| `Refusals` | the errors of each request and the facts that raise them |
| `ConsistencyCheck` | the six repair passes |
| `Visibility`, `ScopedTree`, `VenueCycles` | what the roles of a user open up, the tree of visible entities and venues, and what cycles among venues do to both |
| `JobController`, `VenueTasks` | the scheduler and the venue jobs as interleaved steps |
| `Cidr`, `Fifo` | address matching and the ring buffer |
| `Basics` | two facts several modules use |

Where the source changes things in place there is a class or a method with a loop, tied by its `ensures` to a function on
values; the properties are lemmas about that function.

Assumptions, all visible in the definitions:

- Storage calls succeed, requests run one at a time, generated ids are in no table (`Handlers.Fresh`), and a look-up by a
  field returns a row that has it, or none only if there is none (`Handlers.Answered`).
- `valid` in a request collects the checks on its body that concern no modelled table.
- The members of a JSON object are visited in ascending order of their names. A malformed document, a null in an array and a
  missing endpoint while error logging is on end the computation with an exception: the message for a missing endpoint has a
  placeholder and no argument.
- The pool of threads has `capacity - used` available threads.
- Steps of threads are atomic.
- Rows are visited in some order, each once; nothing says that two visits use the same order.

Where the code does less than one might expect, the exact condition is proved:

- A variable whose own top level has a reserved name puts that name into the result
  (`VariableExpansion.CleanExactly`, `VariableExpansion.TopLevelReferenceSurvives`).
- Expansion is not idempotent where an inner array holds empty arrays only (`VariableExpansion.ExpandTwiceExactly`,
  `VariableExpansion.NestedEmptyArrayIsNotStable`).
- A serial that is neither twelve digits long nor zero breaks the lockstep of the vectors (`SerialNumberCache.AddKeepsLockstep`,
  `SerialNumberCache.ShortSerialBreaksLockstep`).
- The `removeSubscriber` form of the inventory PUT can leave a subscriber device without a matching record
  (`SubscriberDevices.RemoveSubscriberInStep`, `SubscriberDevices.FreedRecordFallsOutOfStep`).
- A PUT can leave a subscriber without an OLG (`SubscriberDevices.PutKeepsExactlyOne`, `SubscriberDevices.OnlyOlgTurnsIntoAp`).
- The start-up check leaves the dangling entity reference of an operator when no entity refers back to it, or an earlier operator
  takes the one that does (`ConsistencyCheck.EndsWithEntity`, `ConsistencyCheck.DanglingReferenceStays`).
- A second start-up check changes operator references when several operators claim one entity and the rows come in another order
  (`ConsistencyCheck.CheckedTwice`, `ConsistencyCheck.TwoClaimantsAlternate`).
- A record whose visible parent or entity has no record drops out of the tree (`ScopedTree.OnceExactly`, `ScopedTree.OrphanIsHidden`).
- What the roles of a user open up depends on their order when a venue and its entity both have one (`Visibility.OrderExactly`,
  `Visibility.OrderMatters`).
- A venue PUT may make venues each other's parents: the walk up for a role on such a venue then has no end
  (`VenueCycles.VenuePutEndsExactly`, `VenueCycles.TwoPutsMakeACycle`), and all venues on or under the cycle, or under a venue that is
  its own parent, drop out of the tree (`ScopedTree.OnceExactly`, `VenueCycles.SelfParentDropsOut`).
- Writing into the last free cell of the ring buffer loses all items (`Fifo.ReadableAfterWrite`, `Fifo.FullRingReadsNothing`).

## Model

| member | source | states |
|---|---|---|
| `VariableExpansion.ExpansionIsClean` | src/APConfig.cpp:82-207 | for every document and every acyclic store whose variables carry no reserved name at their own top level, the result has no reserved name at any depth; with no nulls, malformed variables or missing endpoints the expansion does finish, whether or not errors are logged |
| `VariableExpansion.SameOutcome` | src/APConfig.cpp:82-207 | the outcome does not depend on the ranks that show the store to be free of cycles |
| `VariableExpansion.CleanExactly` | src/APConfig.cpp:82-116 | every document expands to a clean one if and only if no variable of the store has a reserved name at its top level, whether or not errors are logged |
| `VariableExpansion.TopLevelReferenceSurvives` | src/APConfig.cpp:95-112 | a concrete variable whose reserved name survives |
| `VariableExpansion.CleanIsPruned` | src/APConfig.cpp:118-207 | on documents without reserved names expansion is exactly the removal of empty inner arrays |
| `VariableExpansion.ExpansionFixpoint` | src/APConfig.cpp:118-207 | a document expands to itself if and only if it has no reserved name, no empty inner array and no null item |
| `VariableExpansion.ExpandTwice` | src/APConfig.cpp:118-207 | a second expansion changes nothing if and only if the first result has no empty inner array, which is so whenever no inner array of document and store is hollow, that is, holds empty arrays only |
| `VariableExpansion.ExpandTwiceExactly` | src/APConfig.cpp:160-190 | a document without references expands twice as once if and only if none of its inner arrays is hollow |
| `VariableExpansion.NestedEmptyArrayIsNotStable` | src/APConfig.cpp:163-187 | a document with `[[]]` changes again on the second expansion |
| `VariableExpansion.OwnMembersOverride` | src/APConfig.cpp:118-177 | after the references, each name holds the object's own expanded value, or else what the references put there |
| `VariableExpansion.ReplaceVariablesInArray` | src/APConfig.cpp:179-207 | the loop over an array computes the expansion of its items, exceptions included |
| `VariableExpansion.ReplaceVariablesInObject` | src/APConfig.cpp:118-177 | the loop over an object computes the expansion of its members |
| `VariableExpansion.ReplaceNestedVariables` | src/APConfig.cpp:82-116 | the loop over a block computes the expansion of its variables, of which `ExpansionMeaning.VariablesPerformed` says what it leaves under each name |
| `ExpansionMeaning.ObjectMeans` | src/APConfig.cpp:118-177 | for every object and name: the result holds the value written last there by its own members, its blocks in their order and its endpoints, expanded unless an endpoint gave it; nothing is written after an unknown endpoint or for an empty array; the expansion throws if and only if a reference cannot be read or a value written throws |
| `ExpansionMeaning.ArrayMeans` | src/APConfig.cpp:179-207 | an array expands item by item in order, without its empty arrays, and throws if and only if it holds a null or an item throws |
| `ExpansionMeaning.VariablesPerformed` | src/APConfig.cpp:82-116 | the variables of a block leave under each name the last value any of them gives it, or else what was there |
| `ExpansionMeaning.BlocksPerformed` | src/APConfig.cpp:123-147 | of several blocks a later one wins, and an unknown id changes nothing |
| `ExpansionMeaning.PutAllPerformed` | src/APConfig.cpp:148-154 | an endpoint copies its members over what was there |
| `ExpansionMeaning.ListNamesBlocks` | src/APConfig.cpp:124-137 | a list of texts, numbers or truth values names the blocks of these texts in order |
| `ExpansionMeaning.LastBlockShows` | src/APConfig.cpp:123-147 | a document that only refers to blocks holds, under each name that the last of them gives a value without references, that value |
| `ExpansionMeaning.BlockReplacesDocument` | src/APConfig.cpp:138-147 | a document that refers to a block of one variable without references becomes that variable |
| `ApConfig.InsertKeepsStable` | src/APConfig.cpp:379-394 | inserting after everything at least as heavy extends the stable order by one element |
| `ApConfig.FirstIsClaimant` | src/APConfig.cpp:249-256 | the first definer of a section in the sorted list is the heaviest one, the earliest added among equals |
| `ApConfig.AssembleSettles` | src/APConfig.cpp:248-299 | a run over the elements gives every section the value of the first element that defines it, unless an exception came first |
| `ApConfig.SectionComesFromClaimant` | src/APConfig.cpp:249-299 | each section is the expansion of the array or object of the claimant, the heaviest and earliest definer, unless the run stopped first; a claiming scalar shows nothing yet hides the rest; a section nobody defines is not there |
| `ApConfig.AssembleShows` | src/APConfig.cpp:248-299 | also when the run ends early: the result holds exactly, for each name, the first section of that name, expanded, if it is an array or object and no earlier first section failed to expand |
| `ApConfig.AssembleStops` | src/APConfig.cpp:246-299 | the run ends early if and only if an element is no object or a first section of its name fails to expand |
| `ApConfig.AssemblePresentable` | src/APConfig.cpp:248-299 | no section holds a reserved name at any depth, on stores whose variables carry none at their top level |
| `ApConfig.EntityGathers` | src/APConfig.cpp:443-452 | the walk from an entity collects what the places on the path to the last parent list, and nothing else |
| `ApConfig.VenueGathers` | src/APConfig.cpp:454-465 | the same from a venue, whose path goes on with its entity or else its parent |
| `ApConfig.GatheredExactly` | src/APConfig.cpp:401-465 | an element is collected if and only if a known record holds it that a place on the path lists and whose device types have `*` or the type in any case |
| `ApConfig.GatheredInOrder` | src/APConfig.cpp:443-465 | elements of a place come before those of the places above it |
| `ApConfig.ListingInOrder` | src/APConfig.cpp:396-399 | elements of a record come before those of the records listed after it |
| `ApConfig.Resolver.LowerBound` | src/APConfig.cpp:386-389 | binary search finds the place after everything at least as heavy |
| `ApConfig.Resolver.AddElements` | src/APConfig.cpp:379-394 | the list stays the stable sort by weight of all elements added |
| `ApConfig.Resolver.AddConfiguration` | src/APConfig.cpp:401-441 | adds the elements of a known record whose device types match, and nothing otherwise |
| `ApConfig.Resolver.AddConfigurations` | src/APConfig.cpp:396-399 | adds the elements of the records one after the other |
| `ApConfig.Resolver.AddEntityConfig` | src/APConfig.cpp:443-452 | adds the elements of an entity and then of its parents, that is, of all places on the path up |
| `ApConfig.Resolver.AddVenueConfig` | src/APConfig.cpp:454-465 | adds the elements of a venue and then of its entity, or else of its parent, that is, of all places on the path up |
| `ApConfig.Resolver.Collect` | src/APConfig.cpp:214-229 | an element is added if and only if a matching record holds it that is the configuration of the device itself or is listed by a place on the path from its entity, or else its venue; own elements first, then place by place |
| `ApConfig.Resolver.Get` | src/APConfig.cpp:248-368 | every section of the answer is the expansion of what its claimant gives, whatever the order by weight; the answer is complete unless the run stopped, which is characterised exactly; no section holds a reserved name; success means that some element was added |
| `HexText.TextRoundTrip` | src/framework/utils.cpp:342-354 | printing as twelve digits and parsing are inverse to each other |
| `HexText.ReverseAgreesWithText` | src/SerialNumberCache.h:33-37 | reversing the digits of a number is reversing its text and parsing it |
| `HexText.ReverseDigitsTwice` | src/SerialNumberCache.cpp:47-56 | reversal is an involution on numbers of that many digits |
| `SerialNumberCache.Reverse` | src/SerialNumberCache.cpp:47-56 | the 64-bit shift loop computes the reversal of the low twelve digits |
| `SerialNumberCache.AddKeepsLockstep` | src/SerialNumberCache.cpp:14-28 | adding a new serial keeps both vectors ascending and the second the image of the first if and only if it has twelve digits or is zero |
| `SerialNumberCache.ShortSerialBreaksLockstep` | src/SerialNumberCache.cpp:23-26 | the serial `1` breaks the lockstep |
| `SerialNumberCache.DeleteKeepsLockstep` | src/SerialNumberCache.cpp:30-45 | the same condition for deleting a live serial |
| `SerialNumberCache.RunKeepsLockstep` | src/SerialNumberCache.cpp:14-45 | every sequence of additions and deletions of twelve-digit serials keeps the lockstep |
| `SerialNumberCache.RunContents` | src/SerialNumberCache.cpp:14-45 | after every sequence of additions and deletions exactly the serials are there whose last operation added them, besides those that were there and untouched |
| `SerialNumberCache.FindLowerBound` | src/SerialNumberCache.cpp:73-73 | halving finds the first place not below the wanted number |
| `SerialNumberCache.ReturnNumbers` | src/SerialNumberCache.cpp:58-95 | for every text: an exception exactly when it cannot be parsed; a short query gives the first n matches of the vector led back to the live serials, twelve characters the number they parse to if it is there, a longer text nothing |
| `SerialNumberCache.StoullOfHex` | src/SerialNumberCache.cpp:64-72 | the parser, modelled on every text, reads hexadecimal digits as their number and throws on none or too many |
| `SerialNumberCache.StretchIsFirst` | src/SerialNumberCache.cpp:58-95 | such a stretch is the first n of a plain filter of the live serials in the order of the key |
| `SerialNumberCache.Cache.AddSerialNumber` | src/SerialNumberCache.cpp:14-28 | the vectors after an addition, also when parsing throws: the number is there and no other came or went |
| `SerialNumberCache.Cache.DeleteSerialNumber` | src/SerialNumberCache.cpp:30-45 | the vectors after a deletion: the number is gone and no other came or went |
| `SerialNumberCache.Cache.NumberExists` | src/SerialNumberCache.h:28-31 | membership among the live numbers |
| `SerialNumberCache.Cache.FindNumbers` | src/SerialNumberCache.cpp:97-111 | for every text: a prefix query of lower-case digits gives the first n live serials that start with it in ascending order, a `*suffix` query the first n that end with it in order of reversed text; other text gives an exception, nothing, or with twelve characters the number it parses to |
| `Provisioning.Provisioning.PostInventory` | src/RESTAPI/RESTAPI_inventory_handler.cpp:193-318 | keeps all invariants; accepted exactly under the checks; then the new record has every field of the body, refers to the configuration given inline, stored under the new id, or to the one the body names, joins the sorted list of its place, and no other record, list, configuration or account changes |
| `Provisioning.Provisioning.PutInventory` | src/RESTAPI/RESTAPI_inventory_handler.cpp:379-536 | keeps all invariants and devices in step; an accepted body PUT keeps the serial, takes every field from the body or leaves it, moves the record from list to list only where the body says, stores an inline configuration and no other, and gives the device with its serial the configuration |
| `Provisioning.Provisioning.DeleteInventory` | src/RESTAPI/RESTAPI_inventory_handler.cpp:137-191 | keeps all invariants; a deleted record belonged to no subscriber or subscriber device; it leaves the lists of its place, its configuration goes if it was made for one subscriber, and nothing else changes |
| `Provisioning.Provisioning.FreeInventory` | src/RESTAPI/RESTAPI_inventory_handler.cpp:336-377 | keeps all invariants, and devices in step if and only if freeing is clean; the record stays in its place without subscriber and known configuration; exactly the devices and sign-ups of the subscriber go |
| `Provisioning.Provisioning.PostSubDevice` | src/RESTAPI/RESTAPI_sub_devices_handler.cpp:824-857 | keeps all invariants and devices in step; accepted exactly under the group and uniqueness checks; then the device is what the body says, with inline elements stored under the new id, and the record of its serial, an old or a new one, says the same and is in the venue of the subscriber, if there is one |
| `Provisioning.Provisioning.PutSubDevice` | src/RESTAPI/RESTAPI_sub_devices_handler.cpp:885-914 | keeps all invariants and devices in step; after a PUT with elements the device refers to a record that holds them and their device types: the one the body names, or its own, or a new one; an empty list clears the reference and deletes the old record; without the field the reference is as the body says or as it was; no other configuration changes; the record of the serial is synced exactly when the request concerns it |
| `Provisioning.Provisioning.DeleteSubDevice` | src/RESTAPI/RESTAPI_sub_devices_handler.cpp:796-822 | keeps all invariants; an OLG goes last; afterwards no device and no record has the serial, the configurations of both are gone, the record leaves the lists of its place, and nothing else changes |
| `Provisioning.Provisioning.PostVenue` | src/RESTAPI/RESTAPI_venue_handler.cpp:133-245 | keeps all invariants; a new venue is what the body says without children, a child in the entity of its parent; it joins the lists of parent and entity, where no other has its name in any case; when no role can be made the venue is gone again but stays in the lists |
| `Provisioning.Provisioning.PutVenue` | src/RESTAPI/RESTAPI_venue_handler.cpp:436-570 | keeps all invariants; a moved venue leaves the list of its old place, joins that of the new one, keeps everything else, and nothing else changes |
| `Provisioning.Provisioning.DeleteVenue` | src/RESTAPI/RESTAPI_venue_handler.cpp:81-131 | keeps all invariants; a deleted venue was the place of no record and leaves the lists of its parent and its entity |
| `Provisioning.Provisioning.PostEntity` | src/RESTAPI/RESTAPI_entity_handler.cpp:73-158 | keeps all invariants; a new entity is the body without children, venues, contacts, locations and operator, under the root or the entity of an operator, whose list it joins |
| `Provisioning.Provisioning.PutEntity` | src/RESTAPI/RESTAPI_entity_handler.cpp:160-211 | keeps all invariants; only the policy of the entity changes, and only if the body names one |
| `Provisioning.Provisioning.PutOperator` | src/RESTAPI/RESTAPI_operators_handler.cpp:215-264 | the same for an operator |
| `Provisioning.Provisioning.DeleteEntity` | src/RESTAPI/RESTAPI_entity_handler.cpp:34-71 | keeps all invariants; no device, child or operator is left in a deleted entity, which leaves the list of its parent |
| `Provisioning.Provisioning.PostOperator` | src/RESTAPI/RESTAPI_operators_handler.cpp:137-213 | keeps all invariants; the new operator, whose registration id no other has, and its entity under the root refer to each other, and the root lists the entity |
| `Provisioning.Provisioning.DeleteOperator` | src/RESTAPI/RESTAPI_operators_handler.cpp:73-135 | keeps all invariants; operator and entity go together and leave no sign-up, device or child behind |
| `Provisioning.Provisioning.PostSignup` | src/RESTAPI/RESTAPI_subscriber_handler.cpp:30-217 | keeps all invariants; when a row is made or reused it is the pending row of the e-mail under the operator, and its entity has a venue of that name: the one it had, or a new one of the user, which it lists; no other row or venue changes |
| `Provisioning.Provisioning.PutSignup` | src/RESTAPI/RESTAPI_subscriber_handler.cpp:220-252 | keeps all invariants; a pending row waits for a device once its e-mail is verified, no other row changes and none moves backwards |
| `Provisioning.Provisioning.DeleteSignup` | src/RESTAPI/RESTAPI_subscriber_handler.cpp:322-384 | keeps all invariants; accepted exactly when no venue of the subscriber has devices and the security service agrees; then the sign-up and these venues are gone, each once from the list of its entity, and nothing else; otherwise the sign-up stays and exactly the venues before the first one with devices are gone |
| `Provisioning.Provisioning.Serve` | src/RESTAPI/RESTAPI_db_helpers.h:403-453 | every answered sequence of requests keeps all invariants, and devices in step as long as records are freed cleanly |
| `Guarantees.StepSane` | src/RESTAPI/RESTAPI_db_helpers.h:403-453 | every request keeps all invariants together |
| `Guarantees.NewSystemSane` | src/StorageService.cpp:597-615 | the tables of a new system, a root entity and a default operator on it, meet all invariants |
| `Guarantees.NewSystemStaysSane` | src/StorageService.cpp:597-615 | so every run of requests on a new system keeps them |
| `Guarantees.InventoryPostGives` | src/RESTAPI/RESTAPI_inventory_handler.cpp:289-311 | an accepted POST gives the record the body describes, listed by its place, and changes nothing else |
| `Guarantees.InventoryPutGives` | src/RESTAPI/RESTAPI_inventory_handler.cpp:402-518 | every field is that of the body or as before, the configuration too, and lists change only where the body moves the record |
| `Guarantees.InventoryDeleteGives` | src/RESTAPI/RESTAPI_inventory_handler.cpp:157-188 | the record leaves the lists of its place, and a configuration made for one subscriber goes with it |
| `Guarantees.PutWrites` | src/RESTAPI/RESTAPI_sub_devices_handler.cpp:157-264 | what a device PUT does to the reference and the stored configurations in all of its cases |
| `Guarantees.PutConcerns` | src/RESTAPI/RESTAPI_sub_devices_handler.cpp:900-907 | the record is synced if and only if the PUT names a field the record has too or changes the reference or a configuration, or the body asks for it |
| `Guarantees.SyncGives` | src/RESTAPI/RESTAPI_sub_devices_handler.cpp:491-601 | syncing writes one record only, that of the serial, which gets subscriber, configuration and policy of the device and the venue of the subscriber, if there is one, and moves to its list |
| `Guarantees.SubDeviceDeleteGives` | src/RESTAPI/RESTAPI_sub_devices_handler.cpp:610-654 | device and record are gone with the configurations of both, and nothing else |
| `Guarantees.VenuePutGives` | src/RESTAPI/RESTAPI_venue_handler.cpp:455-475 | a moved venue leaves its old lists, joins the new ones and keeps the rest |
| `Guarantees.OperatorDeleteGives` | src/RESTAPI/RESTAPI_operators_handler.cpp:73-135 | an operator goes with its entity and nothing is left in it |
| `Guarantees.SignupDeleteGives` | src/RESTAPI/RESTAPI_subscriber_handler.cpp:353-384 | the sign-up and the venues of the subscriber are gone, or when that was refused half-way exactly the venues before the first one with devices |
| `Memberships.ListMoves` | src/framework/orm.h:793-819 | leaving and joining lists: the first occurrence is erased and the rest keeps its order; a joined list is sorted with the new id, and nothing changes where it was there |
| `Refusals.RefusedChangesNothing` | src/RESTAPI/RESTAPI_inventory_handler.cpp:193-296 | a request that meets any of the errors of its handler leaves all tables as they were |
| `Refusals.InventoryPostRefused` | src/RESTAPI/RESTAPI_inventory_handler.cpp:204-294 | a POST is accepted if and only if none of its ten errors applies |
| `Refusals.InventoryPutRefused` | src/RESTAPI/RESTAPI_inventory_handler.cpp:328-482 | the same for a body PUT |
| `Refusals.SubDevicePostRefused` | src/RESTAPI/RESTAPI_sub_devices_handler.cpp:335-402 | the same for a device POST: the first device of a subscriber is the OLG and no other |
| `Refusals.SubDevicePutRefused` | src/RESTAPI/RESTAPI_sub_devices_handler.cpp:300-448 | the same for a device PUT, with a second OLG of the subscriber it will belong to |
| `Refusals.VenuePostRefused` | src/RESTAPI/RESTAPI_venue_handler.cpp:152-180 | the same for a venue POST, names compared without regard to case within the entity or else the parent |
| `Refusals.OperatorDeleteRefused` | src/RESTAPI/RESTAPI_operators_handler.cpp:79-122 | the same for deleting an operator: not a default one, no sign-ups, and no linked entity that is the root, in use or of another operator |
| `Refusals.SignupPostRefused` | src/RESTAPI/RESTAPI_subscriber_handler.cpp:41-173 | a sign-up makes or reuses a row if and only if none of its errors applies |
| `Tables.LowerComparesLetters` | src/APConfig.cpp:370-377 | comparing lower-cased text is comparing without regard to case |
| `Tables.NormaliseTrims` | src/RESTAPI/RESTAPI_subscriber_handler.cpp:31-38 | e-mail addresses and registration ids are compared in lower case without the white space around them |
| `Placement.StepPlaced` | src/RESTAPI/RESTAPI_db_helpers.h:403-453 | every request keeps: a record that names a venue or an entity names an existing one that lists it |
| `Placement.RunPlaced` | src/RESTAPI/RESTAPI_inventory_handler.cpp:184-188 | over every run of all handlers no placement dangles |
| `Placement.MoveVenueMembers` | src/RESTAPI/RESTAPI_db_helpers.h:422-427 | a move keeps every other membership and adds the new one |
| `Placement.DropVenuesPlaced` | src/RESTAPI/RESTAPI_subscriber_handler.cpp:353-372 | deleting a subscriber's venues, also half-way, leaves no placement dangling |
| `SubscriberDevices.SyncInventoryInStep` | src/RESTAPI/RESTAPI_sub_devices_handler.cpp:491-601 | syncing brings one device in step and leaves the records of other serials alone |
| `SubscriberDevices.ReferenceChangeIsSynced` | src/RESTAPI/RESTAPI_sub_devices_handler.cpp:900-907 | a PUT that changes the reference of a device always syncs |
| `SubscriberDevices.InventoryPutInStep` | src/RESTAPI/RESTAPI_inventory_handler.cpp:505-518 | a body PUT keeps serial and configuration of device and record equal |
| `SubscriberDevices.RemoveSubscriberInStep` | src/RESTAPI/RESTAPI_inventory_handler.cpp:336-377 | freeing a record keeps devices and inventory in step if and only if no device with its serial stays behind with a cleared reference |
| `SubscriberDevices.FreedRecordFallsOutOfStep` | src/RESTAPI/RESTAPI_inventory_handler.cpp:336-377 | a concrete run: a record given to another subscriber, who is then removed, leaves a device out of step |
| `SubscriberDevices.StepInStep` | src/RESTAPI/RESTAPI_sub_devices_handler.cpp:157-264 | every request keeps: each subscriber device has a record with the same serial and configuration |
| `SubscriberDevices.RunInStep` | src/RESTAPI/RESTAPI_inventory_handler.cpp:145-154 | the same over every run in which records are freed cleanly |
| `SubscriberDevices.RunWithoutReleaseIsClean` | src/RESTAPI/RESTAPI_inventory_handler.cpp:336-377 | every run without `removeSubscriber` is such a run |
| `SubscriberDevices.AddedDevice` | src/RESTAPI/RESTAPI_sub_devices_handler.cpp:379-401 | a new device keeps exactly one OLG if and only if it is an OLG for a subscriber without devices and an AP otherwise |
| `SubscriberDevices.RemovedDevice` | src/RESTAPI/RESTAPI_sub_devices_handler.cpp:118-137 | a deletion keeps exactly one OLG if and only if it is not the OLG of a subscriber with other devices |
| `SubscriberDevices.StepKeepsOlg` | src/RESTAPI/RESTAPI_sub_devices_handler.cpp:379-445 | every request but a device PUT keeps exactly one OLG per subscriber with devices, every request keeps at most one |
| `SubscriberDevices.StepUnique` | src/RESTAPI/RESTAPI_sub_devices_handler.cpp:324-329 | every request keeps serials unique in both tables |
| `SubscriberDevices.PutKeepsExactlyOne` | src/RESTAPI/RESTAPI_sub_devices_handler.cpp:406-448 | a PUT keeps exactly one OLG if and only if the device keeps its group, or moves without leaving or doubling an OLG |
| `SubscriberDevices.OnlyOlgTurnsIntoAp` | src/RESTAPI/RESTAPI_sub_devices_handler.cpp:428-430 | a concrete PUT that is accepted and leaves a subscriber without an OLG |
| `SubscriberDevices.RunKeepsOlg` | src/RESTAPI/RESTAPI_sub_devices_handler.cpp:379-445 | over every run serials stay unique and there is no second OLG; without device PUTs exactly one |
| `Hierarchy.StepOrdered` | src/RESTAPI/RESTAPI_entity_handler.cpp:104-138 | every request keeps the tree two levels deep and operators and entities paired |
| `Hierarchy.TwoSteps` | src/APConfig.cpp:443-452 | every entity reaches the root in at most two parent steps |
| `Hierarchy.RunOrdered` | src/RESTAPI/RESTAPI_operators_handler.cpp:95-212 | over every run the pairing holds and the walk to the root ends from every entity |
| `Hierarchy.OperatorsAndEntitiesCorrespond` | src/RESTAPI/RESTAPI_operators_handler.cpp:176-212 | there are as many non-default operators as entities with an operator |
| `Hierarchy.VenueWalkEnds` | src/APConfig.cpp:454-465 | over every run the walk from every venue ends, although venues may become each other's parents |
| `Signups.StepSound` | src/RESTAPI/RESTAPI_subscriber_handler.cpp:61-197 | every request keeps one row per e-mail and per user under an existing operator, and moves no row backwards |
| `Signups.RunSound` | src/RESTAPI/RESTAPI_subscriber_handler.cpp:240-252 | the same over every run |
| `Signups.OperatorDeleteSound` | src/RESTAPI/RESTAPI_operators_handler.cpp:84-93 | deleting an operator leaves no sign-up without one |
| `Signups.KnownEmailChangesNothing` | src/RESTAPI/RESTAPI_subscriber_handler.cpp:92-104 | a POST without resend for an e-mail that has a row changes nothing |
| `Signups.RepeatChangesNothing` | src/RESTAPI/RESTAPI_subscriber_handler.cpp:61-217 | right after a POST that did something, a second one for the same e-mail changes nothing, resend or not |
| `ConsistencyCheck.CheckedIsConsistent` | src/StorageService.cpp:357-595 | after the six passes every table is as its pass would leave it and every operator is settled |
| `ConsistencyCheck.NothingDangles` | src/StorageService.cpp:357-492 | then no list or field of a venue, entity or inventory record dangles, no rule says "yes", and default operators are on the root |
| `ConsistencyCheck.CheckKeeps` | src/StorageService.cpp:357-595 | no row is lost; a list keeps exactly its known ids in their order, a field every id that exists, an operator its existing entity, and a policy changes only from "yes" to "inherit" |
| `ConsistencyCheck.CheckKeepsPlaced` | src/StorageService.cpp:361-480 | where every record was listed by the place it names, it still is |
| `ConsistencyCheck.ListedStays` | src/StorageService.cpp:361-405 | the venues and entities that list a record are the same before and after |
| `ConsistencyCheck.FixOperatorLinks` | src/StorageService.cpp:511-565 | which entity an operator ends up with, read off the rows |
| `ConsistencyCheck.CheckedTwice` | src/StorageService.cpp:357-595 | a second check, which may visit the rows in other orders, ends in the same state if and only if each entity other than the root has the same last claimant in both orders of operators |
| `ConsistencyCheck.LastClaimantWins` | src/StorageService.cpp:547-557 | an entity ends up with the last operator that claims it |
| `ConsistencyCheck.SecondPass` | src/StorageService.cpp:511-565 | the same for the operator pass alone |
| `ConsistencyCheck.RecheckExactly` | src/StorageService.cpp:357-595 | on repaired tables the check changes nothing if and only if each entity refers to the last operator, in the order of this run, that claims it |
| `ConsistencyCheck.SingleClaimants` | src/StorageService.cpp:511-565 | where no entity has two claimants the order of operators does not matter |
| `ConsistencyCheck.TwoClaimantsAlternate` | src/StorageService.cpp:547-557 | two operators that claim one entity take it from each other when the order changes |
| `ConsistencyCheck.EndsWithEntity` | src/StorageService.cpp:533-557 | an operator ends with an existing entity if and only if it had one, or an entity that no earlier operator takes refers to it |
| `ConsistencyCheck.DanglingReferenceStays` | src/StorageService.cpp:533-564 | an operator that keeps a dangling reference |
| `ConsistencyCheck.KeepKnown` | src/StorageService.cpp:361-370 | the loop keeps exactly the known ids, in order, and says whether it dropped one |
| `ConsistencyCheck.FixEntity` | src/StorageService.cpp:387-456 | the repaired entity, of which `ConsistencyCheck.CheckKeeps` says what it keeps |
| `ConsistencyCheck.EntityPass` | src/StorageService.cpp:387-456 | the pass repairs every entity |
| `ConsistencyCheck.LinkOperator` | src/StorageService.cpp:511-565 | a default operator is on the root; another one stays on an existing entity or goes to the first entity, in row order, that refers to it, and the entity refers back; no other record changes, and the operator is settled |
| `ConsistencyCheck.Storage.Check` | src/StorageService.cpp:583-595 | the passes as they run leave consistent tables, keep every row and in it exactly what refers to an existing row, and unplace no device |
| `Visibility.AddVenuesClose` | src/RESTAPI/RESTAPI_entity_list_handler.cpp:60-69 | whoever newly sees a venue sees its children, also when child lists have cycles |
| `Visibility.AddVenuesAreLeast` | src/RESTAPI/RESTAPI_entity_list_handler.cpp:60-69 | nothing else is added: the result is the least such set |
| `Visibility.AncestorsExactly` | src/RESTAPI/RESTAPI_entity_list_handler.cpp:47-58 | the walk up adds exactly the venues above and their entities |
| `Visibility.EntityRoleAdds` | src/RESTAPI/RESTAPI_entity_list_handler.cpp:71-80 | a role on an entity opens its venues and all below them if the entity is not visible yet, and nothing otherwise |
| `Visibility.EntityRolesCommute` | src/RESTAPI/RESTAPI_entity_list_handler.cpp:71-96 | roles on entities open the same whatever their order |
| `Visibility.VenueRolesExactly` | src/RESTAPI/RESTAPI_entity_list_handler.cpp:84-93 | roles on venues add exactly these venues, those above them and their entities, whatever was visible before |
| `Visibility.EntitiesExactly` | src/RESTAPI/RESTAPI_entity_list_handler.cpp:82-98 | the visible entities are those with a role and those shown by a venue, in any order of roles |
| `Visibility.VenuesExactly` | src/RESTAPI/RESTAPI_entity_list_handler.cpp:82-98 | the visible venues are those with a role, those above them and those under the entities that the order lets open |
| `Visibility.TwoRolesExactly` | src/RESTAPI/RESTAPI_entity_list_handler.cpp:82-98 | for one role of each kind: when the venue shows the entity, both orders agree if and only if all that is under the entity is the venue or above it; otherwise they agree |
| `Visibility.OrderExactly` | src/RESTAPI/RESTAPI_entity_list_handler.cpp:82-102 | the order of all roles makes no difference if and only if whatever is under an entity that both has a role and is shown by a venue is visible otherwise, or denied |
| `Visibility.OrderMatters` | src/RESTAPI/RESTAPI_entity_list_handler.cpp:82-98 | a concrete case: a role on a venue before one on its entity opens less than the other way round |
| `Visibility.Collector.AddVenueAndDescendants` | src/RESTAPI/RESTAPI_entity_list_handler.cpp:60-69 | the recursive closure computes that set |
| `Visibility.Collector.AddEntityAndDescendants` | src/RESTAPI/RESTAPI_entity_list_handler.cpp:71-80 | the closure for an entity |
| `Visibility.Collector.AddVenueAncestors` | src/RESTAPI/RESTAPI_entity_list_handler.cpp:47-58 | the closure for what is above a venue |
| `Visibility.Collector.AddRoles` | src/RESTAPI/RESTAPI_entity_list_handler.cpp:82-102 | the visible sets for all roles, forbidden venues taken out at the end |
| `ScopedTree.VenueCount` | src/RESTAPI/RESTAPI_entity_list_handler.cpp:197-223 | in a tree a venue occurs as its root or below each occurrence of its parent |
| `ScopedTree.VenuesInEntity` | src/RESTAPI/RESTAPI_entity_list_handler.cpp:225-262 | in the tree of an entity a venue occurs below its visible parent, or without a parent below its entity |
| `ScopedTree.EntityOnce` | src/RESTAPI/RESTAPI_entity_list_handler.cpp:264-277 | on tables whose lists agree with the parent fields, with or without cycles: an entity occurs once below the root entities if walking up from it arrives at a root, and otherwise not at all |
| `ScopedTree.VenueOnce` | src/RESTAPI/RESTAPI_entity_list_handler.cpp:279-295 | the same for a venue, walking up over parents and then the entity, below root entities and root venues |
| `ScopedTree.EveryNodeHangs` | src/RESTAPI/RESTAPI_entity_list_handler.cpp:197-295 | every node hangs under the node of its own parent or entity, and the roots are exactly records without a visible one |
| `ScopedTree.SiblingsInOrder` | src/RESTAPI/RESTAPI_entity_list_handler.cpp:197-262 | children and venues come in the order of the lists of their place, as far as they may be seen |
| `ScopedTree.OnceExactly` | src/RESTAPI/RESTAPI_entity_list_handler.cpp:197-295 | every visible record occurs exactly once if and only if the visible place of every record has a record too and walking up over parents ends from every record |
| `ScopedTree.OrphanIsHidden` | src/RESTAPI/RESTAPI_entity_list_handler.cpp:279-295 | a concrete venue that may be seen and is in no tree |
| `VenueCycles.SelfParentDropsOut` | src/RESTAPI/RESTAPI_venue_handler.cpp:468-475 | one accepted PUT that makes a venue its own parent: lists and fields agree, every place has a record, a role on the entity shows the venue, and it is in no tree |
| `VenueCycles.ReparentEndsExactly` | src/RESTAPI/RESTAPI_entity_list_handler.cpp:47-58 | the guard the handler lacks: on tables on which every walk up ends, giving a venue a parent keeps it so if and only if the parent is the venue itself or not below it |
| `VenueCycles.VenuePutEndsExactly` | src/RESTAPI/RESTAPI_venue_handler.cpp:468-475 | the same for an accepted venue PUT |
| `VenueCycles.TwoPutsMakeACycle` | src/RESTAPI/RESTAPI_venue_handler.cpp:468-475 | two accepted PUTs after which the walk up from a venue ends at no depth |
| `VenueCycles.RunEnds` | src/RESTAPI/RESTAPI_entity_list_handler.cpp:47-58 | over every run whose venue PUTs meet the guard, the walk up ends from every venue |
| `VenueCycles.VisibleWalkEnds` | src/RESTAPI/RESTAPI_entity_list_handler.cpp:279-295 | where every walk ends and no venue is its own parent, the walk over visible parents that the tree needs ends too |
| `ScopedTree.EveryRecordOnce` | src/RESTAPI/RESTAPI_entity_list_handler.cpp:197-316 | the answer holds every record from which walking up arrives at a root exactly once and nothing else, besides the node that collects several roots; if every record is shown it is empty only if nothing is visible |
| `ScopedTree.Build` | src/RESTAPI/RESTAPI_entity_list_handler.cpp:264-316 | the loops build that answer, on tables with cycles too |
| `JobController.StepSafe` | src/JobController.cpp:31-64 | every step keeps: jobs are held or removed once, start at most once, are removed only when completed, and at most half of the pool, rounded up, is used |
| `JobController.SchedulerIsSafe` | src/JobController.cpp:31-64 | the same for every interleaving from the start |
| `JobController.StartPass` | src/JobController.cpp:39-49 | an uninterrupted start pass starts exactly the earliest waiting jobs there is room for |
| `JobController.ReapPass` | src/JobController.cpp:51-62 | an uninterrupted reap pass removes exactly the completed jobs |
| `VenueTasks.WorkerOutcomes` | src/Tasks/VenueUpgrade.h:23-63 | the outcomes of the three kinds of workers |
| `VenueTasks.ConfigOutcomes` | src/Tasks/VenueConfigUpdater.h:72-117 | which answers lead to which outcome of a configuration update, and back |
| `VenueTasks.UpgradeOutcomes` | src/Tasks/VenueUpgrade.h:23-63 | the same for an upgrade |
| `VenueTasks.RebootOutcomes` | src/Tasks/VenueRebooter.h:19-34 | the same for a reboot |
| `VenueTasks.StepSound` | src/Tasks/VenueConfigUpdater.h:155-216 | every step keeps: each submitted task waits or was harvested once, and lists and totals are those of the harvested tasks |
| `VenueTasks.HarvestedExactlyOnce` | src/Tasks/VenueConfigUpdater.h:155-216 | for every interleaving, a finished job has harvested every device exactly once |
| `VenueTasks.ConfigUpdateReport` | src/Tasks/VenueConfigUpdater.h:169-216 | every device is on exactly one list, and the error list exceeds the bad configurations by the missing records |
| `VenueTasks.UpgradeReport` | src/Tasks/VenueUpgrade.h:98-174 | every device with a record is on exactly one of five lists, each as long as its total |
| `VenueTasks.RebootReport` | src/Tasks/VenueRebooter.h:69-122 | every device is on exactly one list, and the warnings exceed the failures by the missing records |
| `VenueTasks.ListsNameExactly` | src/Tasks/VenueConfigUpdater.h:169-216 | when the job has finished a list names exactly the devices whose worker ended the way the list is for |
| `VenueTasks.SameReports` | src/Tasks/VenueConfigUpdater.h:155-216 | the interleaving does not matter for the contents of the lists |
| `VenueTasks.NeverStuck` | src/Tasks/VenueConfigUpdater.h:157-216 | until it has finished, a job always has a possible step |
| `VenueTasks.StepProgresses` | src/Tasks/VenueConfigUpdater.h:157-216 | every step brings the job nearer to its end |
| `VenueTasks.RunIsBounded` | src/Tasks/VenueConfigUpdater.h:157-216 | every run ends: its length is bounded by a function of the number of devices |
| `VenueTasks.RunCanFinish` | src/Tasks/VenueConfigUpdater.h:157-216 | every run can go on until the job has finished |
| `Cidr.Match4Prefix` | src/framework/CIDR.h:16-21 | an IPv4 match is agreement of the first bits |
| `Cidr.Match4IsBlock` | src/framework/CIDR.h:16-21 | an IPv4 match means lying in the aligned block of 2^(32 - bits) addresses (section 3.1 of RFC 4632) |
| `Cidr.Match6Prefix` | src/framework/CIDR.h:23-46 | an IPv6 match is agreement of the first bits of the 128 (section 2.3 of RFC 4291) |
| `Cidr.Match6IsBlock` | src/framework/CIDR.h:23-46 | an IPv6 match means lying in the aligned block |
| `Cidr.Match4Equivalence` | src/framework/CIDR.h:16-21 | matching on a fixed number of bits is an equivalence relation |
| `Cidr.Match6Equivalence` | src/framework/CIDR.h:23-46 | the same for IPv6 |
| `Cidr.Match4Shorter` | src/framework/CIDR.h:16-21 | a match on more bits is a match on fewer |
| `Cidr.Match6Shorter` | src/framework/CIDR.h:23-46 | the same for IPv6 |
| `Fifo.ReadRefines` | src/framework/MicroServiceExtra.h:54-70 | a read gives the oldest unread item and fails exactly when there is none |
| `Fifo.WriteRefines` | src/framework/MicroServiceExtra.h:72-86 | a write appends, across the wrap-around of the index |
| `Fifo.ReadableAfterWrite` | src/framework/MicroServiceExtra.h:54-86 | after a write the oldest item can be read if and only if a cell stays free |
| `Fifo.FullRingReadsNothing` | src/framework/MicroServiceExtra.h:54-86 | a concrete ring of two cells that loses two items |
| `Fifo.RunRefinesQueue` | src/framework/MicroServiceExtra.h:54-86 | every run that keeps at most size - 1 items unread answers as an unbounded queue, and the counters are its length and its running maximum |
| `Fifo.Buffer.Read` | src/framework/MicroServiceExtra.h:54-70 | the fields after a read |
| `Fifo.Buffer.Write` | src/framework/MicroServiceExtra.h:72-86 | the fields after a write |

## Left out

- HTTP plumbing, logging, Kafka, web sockets, certificates, tokens and the calls to gateway, security, firmware and analytics services: their answers are parameters.
- `to_json` / `from_json` of the records: flat copying.
- Roles, policies, access control, `AutoCreateCreatorRole` (a parameter) and `EnsureResourceInPolicy`.
- In-use lists, boards, monitoring, service classes, `deviceConfiguration` of venues, and locations or contacts created inline.
- The limit of 100 on the venues of a subscriber and of 10000 on roles.
- The first row a look-up by field returns when several match: the request names any matching row; the start-up check takes the first in a given row order.
- Override application and the explanation output in `APConfig::Get`; the subscriber branch that only adds the device's own configuration.
- The members that `Render` of an endpoint sets: given by the store. The printed form of an array or object as a reference: it names no record.
- Adding or deleting a serial that is not hexadecimal text: queries are modelled on every text, additions and deletions on hexadecimal digits.
- The warning for a section that is `null`: printing an empty value may throw, depending on the library; the model goes on as for other scalars.
- Walks through venues for tables in which some venue has no entity: the depth of the walk is a parameter of `ApConfig.Resolver.AddVenueConfig`.
- Names and devices in the nodes of the tree, and the other answers of the entity list handler.
- Recreating deleted ids: a sign-up row is followed over a run only while it stays in the table.
- `GetDevices` with children, `ParseCertChain`, IP range parsing, import of trees, the `Signup` worker thread.
- Data races and object lifetime in the scheduler and the venue jobs.
- `isFull` and the notifications of the ring buffer, and a ring buffer of size 0.
- `SerialNumberCache.Cache.FindNumbers`: stated for vectors in lockstep, which `SerialNumberCache.RunKeepsLockstep` gives. A query of all twelve digits ignores a limit of 0, so that case is not promised.
- `ApConfig.Resolver.AddEntityConfig`: takes the depth at which the parents end; on a table with a cycle of entities the source does not end. `Hierarchy.RunOrdered` shows that requests never make one.
- `ApConfig.Resolver.AddVenueConfig`: the same for venues, with `Hierarchy.VenueWalkEnds`.
- `Visibility.Collector.AddVenueAncestors`: takes the depth at which the parents end, as the source does not end on a cycle of two or more venues; `VenueCycles.VenuePutEndsExactly` says exactly which PUTs make one, `VenueCycles.RunEnds` that others never do.
- `ScopedTree.Build`: takes lists that agree with the parent fields; without that a record may occur twice, and a descent may enter a cycle and not end.
- `Provisioning.Provisioning.Serve`: the methods of the class ask for tables that meet the invariants, which a new system does (`Guarantees.NewSystemSane`), and for fresh ids and the rows the database returns.
- `Cidr.Match4Prefix`: up to 32 bits, as the source shifts by a negative amount beyond that; `Cidr.Match6Prefix` up to 128, as it reads past the address beyond that.
- `Visibility.OrderExactly`: for tables whose lists agree with the fields; `Visibility.EntityRolesCommute` and the first half of `Visibility.TwoRolesExactly` need no such condition.
- `VenueTasks.SameReports`: the order of entries within a list depends on the interleaving and is not compared.
