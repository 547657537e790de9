# Laboratory samples and access control, modelled in Dafny

This project models the core of a clinical-laboratory web application.

Laboratory staff register **muestras** (samples) for **clientes**. Each
sample follows one **análisis** (a kind of test with its list of result
fields) and carries a status (**estado**) and a list of **resultados**. A
dashboard counts the samples.

Access is role based:
- A user (**Usuario**) is created and updated from the identity provider's
  webhooks.
- A user has at most one **Rol**.
- A role is linked to **Permisos** through the join table **RolPer**.

The server answers permission questions in two ways: the resolver
`getUserRoleAndPermissions` and the point check `hasPermission`. The browser
mirrors the resolver's answer into local storage. Pages and buttons read
that copy.

The hosted database is a `Store.Database` object with one map per table and
a counter for fresh ids. An id is a `nat`, and a higher id means a newer
document. The database's read forms each get their own function:
- `collect` in creation order (`Store.Where`);
- `.unique()`, which throws when several rows match (`Store.Unique`);
- `.first()` (`Store.First`).

Queries are functions over the tables. Mutations are methods on the
database, each proved against a function that states the new table. A
mutation whose handler throws commits nothing; the model checks that case
first and leaves every table unchanged. Browser components that keep state
are classes: the authorization provider, the redirect timer, the user list,
the role manager, the sample filters, the scan dialog and the list of
analysis fields. Their pure helpers are functions.

The model proves properties across the access-control operations, among
them:
- The point check agrees with the resolver whenever the user's role exists.
- The point check still grants through a dangling role id, while the
  resolver answers "Rol no encontrado".
- After a cascading delete, a role or a permission grants nothing.
- Assigning and removing a link are inverse, and assignment creates no
  duplicate pair.
- The client-side controls see exactly what the resolver returned.
- The browser's `getUserRole` reads a key (`roleName`) that the provider
  never writes (it writes `role`), so it always answers null.
- The user list and the resolver name a dangling role differently.

For samples, the model proves:
- A new sample copies the analysis's field template and counts as pending.
- A patch changes only the fields it is given.
- The page's filter pipeline keeps exactly the samples that pass every
  active filter, in order.
- The dashboard's counts are ordered: today ≤ this week, today ≤ this
  month ≤ this year ≤ all samples.
- Loading a sample into the edit form and saving it unchanged round-trips.
  Two exceptions: an empty string comes back as null, and a number or
  boolean stops the form from saving.
- A scanned QR text finds its sample.

## Model

| member | source | states |
|---|---|---|
| Schema.ParseTipo | convex/schema.ts:31-39 | A text is accepted as an analysis kind only when it is one of the seven literals; the accepted kind prints back as that same text, and a rejected text is no kind's literal |
| Schema.TipoLiteralRoundTrip | convex/schema.ts:31-39 | Every one of the seven kinds parses back from its literal |
| Text.ToLower | app/rolypermisos/page.tsx:38 | `toLowerCase` keeps the length and lower-cases each character on its own |
| Text.TrimStart | convex/users.ts:15 | Trimming the front never lengthens the text, and the result does not start with white space or a line terminator |
| Text.TrimStartSpec | convex/users.ts:15 | Leading white space is dropped: the result is a suffix of the input and everything cut is white space or a line terminator, as ECMAScript's `trim` defines them |
| Text.TrimEnd | convex/users.ts:15 | Trimming the back never lengthens the text, and the result does not end with white space or a line terminator |
| Text.TrimEndSpec | convex/users.ts:15 | Trailing white space is dropped: the result is a prefix of the input and everything cut is white space or a line terminator |
| Text.TrimOfOtherSpaces | app/rolypermisos/page.tsx:118 | Vertical tab, form feed, no-break space and ideographic space count as white space for `trim` |
| Text.TrimEmptyIffBlank | app/rolypermisos/page.tsx:118 | `trim() === ""` holds exactly when every character is white space |
| Text.ContainsIffOccurs | app/rolypermisos/page.tsx:37-40 | `includes` holds exactly when the searched text occurs at some position |
| Text.ContainsEmpty | app/rolypermisos/page.tsx:36-41 | Every text includes the empty search text |
| Seqs.Filter | app/muestras/page.tsx:36-39 | `filter` keeps exactly the elements that satisfy the condition and is never longer than its input |
| Seqs.FilterIsSubsequence | app/muestras/page.tsx:33-48 | `filter` keeps what it keeps in the original order |
| Seqs.FilterFilter | app/muestras/page.tsx:33-48 | Filtering twice in a row equals filtering once by both conditions |
| Seqs.SubsequenceTrans | app/muestras/page.tsx:33-48 | A chain of filters still yields a subsequence of the first list |
| Store.WhereSpec | convex/roles.ts:37-40 | A filtered `collect` lists, in creation order, every row that satisfies the filter and nothing else |
| Store.Unique | convex/users.ts:121-124 | `.unique()` finds no row exactly when none matches, finds the only matching row, and throws exactly when two different rows match |
| Store.First | convex/roles.ts:83-91 | `.first()` is empty exactly when no row matches; otherwise it is the oldest matching row |
| Store.All | convex/roles.ts:22-26 | `collect` lists every row once, oldest first; this is `getRoles` |
| Store.Database.constructor | convex/schema.ts:4-99 | The database starts with every table empty |
| Store.Database.NewId | convex/roles.ts:11-15 | An insert gets an id that no table holds yet |
| JoinTable.LinksOfRole | convex/roles.ts:61-64 | The collected links of a role are exactly its join rows, oldest first |
| JoinTable.LinksToPermission | convex/permissions.ts:34-37 | The collected links to a permission are exactly its join rows, oldest first |
| JoinTable.DeleteLinks | convex/roles.ts:66 | Deleting the collected links one by one removes exactly those rows from the join table |
| JoinTable.WithoutLinks | convex/roles.ts:61-66 | Deleting the links a filter selects keeps exactly the other links, each unchanged; with the role filter this is `deleteRole`'s cascade, with the permission filter `deletePermission`'s (convex/permissions.ts:34-39) |
| JoinTable.WithoutLinksKeepsNoDuplicates | convex/permissions.ts:34-39 | A cascading delete of links never creates a repeated role and permission pair |
| JoinTable.PermisoIdsOfRoleMembers | convex/roles.ts:42 | A permission id is listed for a role exactly when some link pairs the two |
| JoinTable.GetAllMembers | convex/roles.ts:44-50 | Fetching ids and dropping the nulls keeps exactly the documents of those ids that exist |
| JoinTable.GrantedNamesIffGrants | convex/users.ts:148-168 | A role's listed permission names are exactly the names its links lead to among existing permissions |
| JoinTable.GrantedNamesCount | convex/users.ts:161-168 | A role lists one name per link to an existing permission, repeated pairs included |
| JoinTable.GrantedNamesDistinct | convex/users.ts:161-168 | With no repeated pair and unique permission names, a role lists each name at most once |
| Users.ResolveUser | convex/users.ts:130-174 | For a found user: "Sin rol asignado" with no permissions when there is no role, "Rol no encontrado" with none when the role is gone, otherwise the role's name and exactly the names its links reach, one per link |
| Users.GetUserRoleAndPermissions | convex/users.ts:115-176 | The resolver throws exactly when two users share the `clerkId`, returns null exactly when none has it, and otherwise describes the only such user's role |
| Users.ResolvedPermissionsDistinct | convex/users.ts:161-173 | With no repeated link and unique permission names, the resolver's permission list has no repeats |
| Users.WithRoleNames | convex/users.ts:83-91 | Each listed user is kept in order, with its role's name added |
| Users.GetUsers | convex/users.ts:79-94 | The user list holds every user exactly once, oldest first, each with its own record and role name |
| Users.GetUsersRoleNames | convex/users.ts:85-88 | The list shows the role's name when the role exists, and "Sin rol asignado" for an unset or dangling role |
| Users.DanglingRoleNamedDifferently | convex/users.ts:85-88 | For a dangling role the list says "Sin rol asignado" while the resolver says "Rol no encontrado" |
| Users.GetCurrentUser | convex/users.ts:99-110 | Null without an identity; otherwise it throws exactly when the subject's `clerkId` is shared, is null exactly when no user has it, and gives the only user with it |
| Users.Upsert | convex/users.ts:6-51 | As written: a payload without id or email is ignored; a user with the email gets the new name and time (the email is kept); otherwise a role-less user is inserted; several users with the email make it throw |
| Users.UpsertKeepsEmailsUnique | convex/users.ts:24-49 | The upsert as written never gives two users the same email |
| Users.UpsertIdempotent | convex/users.ts:6-51 | Delivering the same payload twice to the upsert as written leaves the table as one delivery does |
| Users.EmailChangeDuplicatesClerkId | convex/users.ts:25-28 | An email change at the identity provider makes the upsert as written insert a second user with the same `clerkId`, after which the resolver throws |
| Users.UpsertByClerkId | convex/users.ts:6-51 | The upsert keyed by `clerkId`: invalid payloads are ignored; the one user with the `clerkId` gets the new name, email and time; a user is inserted only when none has it; a shared `clerkId` makes it throw |
| Users.UpsertByClerkIdKeepsOneUser | convex/users.ts:24-49 | Keyed by `clerkId`, an accepted upsert keeps every `clerkId` unique and leaves exactly one user with the payload's `clerkId` and email |
| Users.UpsertByClerkIdIdempotent | convex/users.ts:6-51 | Delivering the same payload twice to the keyed upsert leaves the table as one delivery does |
| Users.EmailChangeKeepsOneUser | convex/users.ts:25-28 | On the same email change the keyed upsert updates the one user and the resolver still answers |
| Users.UpsertFromClerk | convex/users.ts:6-51 | The webhook mutation leaves the users table as `UpsertByClerkId` says and takes a fresh id only when it inserts |
| Users.DeleteByClerkId | convex/users.ts:54-72 | The delete throws exactly when two users share the `clerkId`; otherwise the users with it are gone and every other user is kept unchanged |
| Users.DeleteThenResolveFindsNoUser | convex/users.ts:54-72 | After a delete the resolver finds no user with that `clerkId` |
| Users.DeleteFromClerk | convex/users.ts:54-72 | The delete mutation leaves the table as `DeleteByClerkId` says, and changes nothing when it throws |
| Users.AssignRole | convex/users.ts:182-193 | Fails exactly when the user does not exist; otherwise only that user's role and update time change, and the role id is not checked |
| Users.AssignRoleToUser | convex/users.ts:182-193 | The mutation leaves the table as `AssignRole` says, and changes nothing when the user is missing |
| Roles.CreateRole | convex/roles.ts:7-17 | Inserts a role with the given name and both timestamps, under a fresh id, with no uniqueness check |
| Roles.GetRoleWithPermissions | convex/roles.ts:31-53 | Null exactly for a missing role; otherwise the role with exactly the existing permissions its links lead to |
| Roles.GetRoleWithPermissionsCount | convex/roles.ts:37-51 | One document per link: the role's permissions number exactly its links to existing permissions, so a repeated pair gives a repeated document |
| Roles.DeleteRole | convex/roles.ts:58-70 | The role and all its links are gone; deleting a missing role changes nothing |
| Roles.AssignLink | convex/roles.ts:77-99 | A linked pair returns its oldest link and leaves the table unchanged; otherwise one new link is added under the fresh id |
| Roles.AssignLinkLinks | convex/roles.ts:77-99 | After an assignment the pair is linked and no earlier link is lost |
| Roles.AssignLinkKeepsNoDuplicates | convex/roles.ts:74-99 | Assignment never creates a repeated pair |
| Roles.AssignLinkIdempotent | convex/roles.ts:77-99 | Assigning the same pair twice returns the same id and leaves the table as one assignment does |
| Roles.AssignPermissionToRole | convex/roles.ts:77-99 | The mutation leaves the table as `AssignLink` says and takes a fresh id only when it inserts |
| Roles.RemoveLink | convex/roles.ts:104-124 | An unlinked pair leaves the table unchanged; otherwise exactly the oldest link of the pair is removed |
| Roles.RemoveLinkUnlinks | convex/roles.ts:104-124 | With no repeated pair, removal unlinks the pair and keeps the table free of repeats |
| Roles.AssignThenRemove | convex/roles.ts:77-124 | Removing a pair that was just assigned gives back the table as it was |
| Roles.RemovePermissionFromRole | convex/roles.ts:104-124 | The mutation leaves the table as `RemoveLink` says |
| Permissions.CreatePermission | convex/permissions.ts:7-15 | Inserts the name and description as given, under a fresh id |
| Permissions.GetPermissions | convex/permissions.ts:20-24 | Lists every permission with its id, once each |
| Permissions.GetAllOfExisting | convex/roles.ts:44-50 | Fetching ids that all exist drops none of them |
| Permissions.DeletePermission | convex/permissions.ts:29-42 | The permission and every link to it are gone; deleting a missing permission changes nothing |
| ServerAuth.HasPermission | convex/Auth.ts:4-39 | The point check throws exactly when the user is ambiguous, or when the user has a role and the permission name is ambiguous; it is true exactly when the user's role id is linked to the only permission with that name |
| ServerAuth.AgreesWithResolver | convex/Auth.ts:10-38 | For a user whose role exists, and with unique permission names, the point check is true exactly when the resolver lists the name |
| ServerAuth.DanglingRoleStillGrants | convex/Auth.ts:16-37 | The point check never reads the role: a link from a deleted role's id still grants, while the resolver answers "Rol no encontrado" with no permissions |
| RbacProperties.AssignRoleThenResolve | convex/users.ts:182-193 | After a role assignment the user resolves to that role's name and exactly the names it grants |
| RbacProperties.DeleteRoleThenResolve | convex/roles.ts:58-70 | After a role's deletion its users resolve to "Rol no encontrado" and the point check grants them nothing |
| RbacProperties.RemoveThenResolverOmits | convex/roles.ts:104-124 | Once a permission is unlinked from a user's role, the resolver no longer lists it for that user |
| RbacProperties.DeletePermissionRevokes | convex/permissions.ts:29-42 | After a permission's deletion no link references it and the point check grants its name to nobody |
| ClientPermissions.GetUserPermissions | lib/utils.ts:14-30 | The browser snapshot exists exactly in the browser with a parsable `userAuth` value, and is that value |
| ClientPermissions.HasPermission | lib/utils.ts:32-38 | A control-level check is true exactly when a snapshot exists, has a permissions list and lists the name |
| ClientPermissions.GetUserRole | lib/utils.ts:40-43 | The role is the snapshot's `roleName` field, and is present whenever that field is |
| AuthorizationProvider.GetAuthDataFromStorage | app/auth/userauth.tsx:17-33 | The cache gives the stored role and permissions when the role is a non-empty text and the list is present; otherwise no role and no permissions, on the server and on a parse failure too |
| AuthorizationProvider.SnapshotReadsBack | app/auth/userauth.tsx:80-85 | What the provider stores reads back as the data it held, unless the role name is empty |
| AuthorizationProvider.SnapshotSeenByControls | lib/utils.ts:32-43 | The control-level check answers from the provider's snapshot as the resolver's list does, but `getUserRole` always answers null because the provider writes `role`, not `roleName` |
| AuthorizationProvider.Provider.constructor | app/auth/userauth.tsx:42-44 | The provider starts with no role, no permissions and loading |
| AuthorizationProvider.Provider.SeedFromCache | app/auth/userauth.tsx:47-52 | On mount the cached data is adopted only when it carries a role |
| AuthorizationProvider.Provider.Sync | app/auth/userauth.tsx:62-93 | Loading while the identity or the query loads; with no user or a null answer, the data is cleared and the slot emptied; with an answer, the data and the slot hold its role and permissions |
| AuthorizationProvider.SignedOutSnapshot | app/auth/userauth.tsx:68-72 | After sign-out every control-level check fails and a remount starts from no role |
| PermissionGate.AccessQuery | components/corrobradorpermiso.tsx:39-42 | Without a signed-in user the check is skipped and stays undefined |
| PermissionGate.Decide | components/corrobradorpermiso.tsx:44-52 | The gate shows the placeholder exactly while loading or undefined, the denial exactly for false, and the page exactly for true |
| PermissionGate.NoUserStaysLoading | components/corrobradorpermiso.tsx:39-46 | Without a signed-in user the gate keeps showing the placeholder |
| PermissionGate.RedirectTimer.constructor | components/corrobradorpermiso.tsx:14-17 | Showing the denial schedules one redirect 3000 ms later |
| PermissionGate.RedirectTimer.Tick | components/corrobradorpermiso.tsx:15-17 | Once the deadline passes the timer goes home once and is spent; before it nothing happens |
| PermissionGate.RedirectTimer.Unmount | components/corrobradorpermiso.tsx:18 | Unmounting clears the pending redirect and keeps the navigations made |
| AccessAdminPage.FilteredUsers | app/rolypermisos/page.tsx:36-41 | The search keeps, in order, exactly the users whose lower-cased name or email includes the lower-cased text |
| AccessAdminPage.EmptySearchKeepsAll | app/rolypermisos/page.tsx:36-41 | An empty search shows every user |
| AccessAdminPage.JsSlice | app/rolypermisos/page.tsx:45 | `slice` never returns more than it was given |
| AccessAdminPage.PageIsContiguousSlice | app/rolypermisos/page.tsx:43-46 | From page 1 on, a page is the run of at most five filtered users from position (page − 1)·5; it is full unless it is the last and empty past the end |
| AccessAdminPage.TotalPages | app/rolypermisos/page.tsx:48 | `Math.ceil(count / 5)`: zero exactly for no users, and the pages hold every user with no empty last page |
| AccessAdminPage.DisplayedTotal | app/rolypermisos/page.tsx:86 | The displayed total is at least 1 and otherwise equals the page count |
| AccessAdminPage.EveryUserOnOnePage | app/rolypermisos/page.tsx:43-48 | Every filtered user appears on exactly one page, between 1 and the page count |
| AccessAdminPage.UserList.constructor | app/rolypermisos/page.tsx:24-25 | The list starts with an empty search on page 1 |
| AccessAdminPage.UserList.SetFiltro | app/rolypermisos/page.tsx:58-61 | Typing a search sets the text and goes back to page 1 |
| AccessAdminPage.UserList.Anterior | app/rolypermisos/page.tsx:89 | "Anterior" moves one page back and never below page 1 |
| AccessAdminPage.UserList.Siguiente | app/rolypermisos/page.tsx:90 | "Siguiente" does nothing on the last page or with no pages; otherwise it goes to the smaller of the next page and the page count, which is a step back when the list has shrunk below the current page |
| AccessAdminPage.HandleRoleChange | app/rolypermisos/page.tsx:30-34 | Choosing a role assigns it as `assignRoleToUser` does |
| AccessAdminPage.FilteredPermissions | app/rolypermisos/page.tsx:113-115 | The permission search keeps, in order, exactly the permissions whose lower-cased name includes the text |
| AccessAdminPage.AssignedPermissionIds | app/rolypermisos/page.tsx:105-106 | The ticked ids are exactly those of the loaded role's permissions, and none while nothing is loaded |
| AccessAdminPage.CheckedIffLinked | app/rolypermisos/page.tsx:105-106 | A permission's box is ticked exactly when the selected role is linked to it and it exists |
| AccessAdminPage.RolesManager.constructor | app/rolypermisos/page.tsx:100-102 | No role selected, an empty new name, the dialog closed |
| AccessAdminPage.RolesManager.SelectRole | app/rolypermisos/page.tsx:175 | Clicking a role selects it |
| AccessAdminPage.RolesManager.HandleCreateRole | app/rolypermisos/page.tsx:117-129 | A name that is blank after trimming creates nothing; otherwise the role is created with the name as typed, the name is cleared and the dialog closes |
| AccessAdminPage.RolesManager.HandleDeleteRole | app/rolypermisos/page.tsx:131-140 | The role and its links are deleted, and a selection of that role is cleared; a failed delete changes nothing |
| AccessAdminPage.RolesManager.HandlePermissionChange | app/rolypermisos/page.tsx:142-146 | Without a selection nothing happens; otherwise ticking assigns the pair and unticking removes it |
| Muestras.WithDetails | convex/muestras.ts:16-23 | A sample gets its client's name and its status's name and colour, or the given defaults and grey when either is missing |
| Muestras.GetMuestras | convex/muestras.ts:10-28 | Every sample is listed exactly once, newest first, with its own record |
| Muestras.GetMuestrasDetails | convex/muestras.ts:20-22 | A listed sample with a missing client or status shows "N/A", and a missing status shows grey |
| Muestras.NewestFirst | convex/muestras.ts:12 | Reversing the creation order puts the newest sample first |
| Muestras.GetMuestraById | convex/muestras.ts:31-49 | Throws "Muestra no encontrada" exactly for a missing sample; otherwise the sample with its client's full name and its status's name and colour when those exist, and "Cliente no encontrado", "Estado no definido" and grey when they do not |
| Muestras.InitialResults | convex/muestras.ts:75-80 | One result per field of the analysis, each with a null value |
| Muestras.InitialResultsFollowTemplate | convex/muestras.ts:75-80 | The initial results keep each field's name, unit and reference value, in order |
| Muestras.CreateMuestra | convex/muestras.ts:60-93 | Fails with "El tipo de análisis seleccionado no existe." exactly for a missing analysis and then changes nothing; otherwise inserts the sample with the initial results under a fresh id |
| Muestras.Patch | convex/muestras.ts:112-116 | A patch replaces only the fields it is given, keeps the rest and stamps the update time |
| Muestras.EmptyPatchTouchesOnly | convex/muestras.ts:112-116 | A patch with no fields changes only the update time |
| Muestras.PatchIdempotent | convex/muestras.ts:112-116 | Applying the same patch twice equals applying it once |
| Muestras.UpdateMuestra | convex/muestras.ts:95-118 | Patches the sample when it exists and changes nothing otherwise |
| Muestras.DeleteMuestra | convex/muestras.ts:121-128 | The sample is gone and nothing else changes; deleting a missing one fails |
| Dashboard.FreshSampleIsPending | convex/dashboard.ts:13-18 | Every sample `createMuestra` inserts counts as pending |
| Dashboard.CompleteSampleNotPending | convex/dashboard.ts:13-18 | A sample with a non-empty list and no null value is not pending |
| Dashboard.RowsFilterCount | convex/dashboard.ts:39-53 | Filtering the collected rows counts exactly the matching ids |
| Dashboard.CountRows | convex/dashboard.ts:13-18 | A filtered count is the number of matching samples |
| Dashboard.GetDashboardStats | convex/dashboard.ts:3-65 | The total is the number of clients, the pending count is the number of pending samples, and each period count is the number of samples registered at or after its threshold |
| Dashboard.SinceCount | convex/dashboard.ts:39-53 | A period count is the number of samples registered at or after the threshold |
| Dashboard.SinceMonotone | convex/dashboard.ts:39-53 | A later threshold never counts more samples, and none counts more than all samples |
| Dashboard.CountsOrdered | convex/dashboard.ts:39-63 | With ordered thresholds: today ≤ this week, today ≤ this month ≤ this year ≤ all samples, and pending ≤ all samples |
| Dashboard.WeekOffset | convex/dashboard.ts:27-28 | The days since Monday lie in 0..6, and stepping back that many days from any weekday lands on a Monday |
| Dashboard.ThresholdsFor | convex/dashboard.ts:20-35 | Year start ≤ month start ≤ day start, and the week starts on the last Monday, less than seven days before |
| Dashboard.CountsOrderedOnAnyDate | convex/dashboard.ts:20-53 | On any date the dashboard's period counts come out ordered |
| SamplesPage.Stage | app/muestras/page.tsx:35-47 | An active filter keeps, in order, exactly the samples that satisfy it; an inactive one keeps all |
| SamplesPage.DateRangeActiveIffOrdered | app/muestras/page.tsx:41-44 | The date range applies exactly when the first day is not after the last |
| SamplesPage.FilteredData | app/muestras/page.tsx:28-49 | Nothing while the samples load; otherwise a subsequence of the loaded samples |
| SamplesPage.FilteredDataKeepsPassing | app/muestras/page.tsx:28-49 | A sample is shown exactly when it is loaded and passes every active filter |
| SamplesPage.ClearedShowsAll | app/muestras/page.tsx:28-49 | With every filter cleared the page shows every loaded sample, in order |
| SamplesPage.FilterInputs.constructor | app/muestras/page.tsx:20-23 | The page opens with every filter cleared |
| SamplesPage.FilterInputs.LimpiarFiltros | app/muestras/page.tsx:51-56 | "Limpiar" clears every filter |
| SampleActions.LoadValor | components/muestras/muestra-actions.tsx:56 | A null value is shown as an empty box; any other value as itself |
| SampleActions.SubmitValor | components/muestras/muestra-actions.tsx:67 | An empty box is saved as null; any other value as itself |
| SampleActions.LoadForm | components/muestras/muestra-actions.tsx:85-91 | Opening the editor loads every result with its value shown, and fails when the sample has no result list |
| SampleActions.SubmitForm | components/muestras/muestra-actions.tsx:62-68 | Every row is sent with its value saved, in order |
| SampleActions.ValorRoundTrip | components/muestras/muestra-actions.tsx:28-36 | A loaded value passes the form's validator exactly when it is text or null, and then saving gives it back unless it was the empty string |
| SampleActions.FormRoundTrip | components/muestras/muestra-actions.tsx:52-68 | Opening and saving unchanged keeps names, units and reference values, and gives back all results when none is the empty string |
| SampleActions.LoadedNumberBlocksSave | components/muestras/muestra-actions.tsx:28-36 | A stored number or boolean fails the form's validator, so the sample cannot be saved until that box is retyped |
| SampleActions.OnUpdateSubmit | components/muestras/muestra-actions.tsx:62-74 | Saving patches the sample's status and results and leaves its client alone; a missing sample changes nothing |
| SampleActions.HandleDelete | components/muestras/muestra-actions.tsx:76-83 | Deleting removes the sample; deleting one already gone fails |
| SampleActions.ActionControls | components/muestras/muestra-actions.tsx:93-96 | Each of the four actions is shown exactly when the stored snapshot lists its permission |
| SampleActions.NoSnapshotNoActions | components/muestras/muestra-actions.tsx:93-96 | With nothing stored, every action is hidden |
| ScanSample.NatToString | components/muestras/ScanMuestraButton.tsx:67 | A number's text is a non-empty run of decimal digits |
| ScanSample.NatToStringRoundTrip | components/muestras/ScanMuestraButton.tsx:67 | Reading a number's digits gives back the number |
| ScanSample.NatToStringInjective | components/muestras/ScanMuestraButton.tsx:95 | Different ids print differently |
| ScanSample.FindById | components/muestras/ScanMuestraButton.tsx:95 | `find` answers nothing exactly when no listed id prints as the decoded text; otherwise it gives the first sample whose id does |
| ScanSample.ScanningAnIdFindsIt | components/muestras/ScanMuestraButton.tsx:91-98 | Scanning a listed sample's id finds that sample |
| ScanSample.LoadValor | components/muestras/ScanMuestraButton.tsx:67 | A null value is shown as an empty box; any other value as its text |
| ScanSample.SubmitValor | components/muestras/ScanMuestraButton.tsx:78-81 | An empty or missing box is saved as null; any other box as its text |
| ScanSample.LoadForm | components/muestras/ScanMuestraButton.tsx:63-70 | The form gets one row per result with its value as text, and no rows for a sample without a result list |
| ScanSample.SubmitForm | components/muestras/ScanMuestraButton.tsx:75-82 | Every row is sent with its box saved, in order |
| ScanSample.ValorRoundTrip | components/muestras/ScanMuestraButton.tsx:67-81 | Saving unchanged keeps null and non-empty text, turns the empty string into null, and stores a number or boolean as its text |
| ScanSample.Renders | components/muestras/ScanMuestraButton.tsx:121-125 | The button renders exactly in the browser, once the user has loaded, with "EditarMuestra" stored |
| ScanSample.ScanState.constructor | components/muestras/ScanMuestraButton.tsx:46-47 | The scanner is closed and nothing is selected |
| ScanSample.ScanState.OpenScanner | components/muestras/ScanMuestraButton.tsx:129 | "Escanear Muestra" opens the scanner |
| ScanSample.ScanState.HandleScanSuccess | components/muestras/ScanMuestraButton.tsx:91-102 | The scanner closes; the scan is reported not found exactly when no listed id matches, and otherwise the first match is selected with the form loaded from it |
| ScanSample.ScanState.HandleScanError | components/muestras/ScanMuestraButton.tsx:104-119 | Any scanner error closes the scanner |
| ScanSample.ScanState.OnUpdateSubmit | components/muestras/ScanMuestraButton.tsx:72-88 | Without a selection nothing happens; otherwise the selected sample's status and results are patched and the selection is cleared once that succeeds |
| EstadoForm.MatchColorFromIff | components/estadosMuestra/register-estado-button.tsx:20 | From any position after the `#`, the pattern accepts exactly the right number of hexadecimal digits |
| EstadoForm.MatchesColorIffHexColor | components/estadosMuestra/register-estado-button.tsx:20 | `^#[0-9a-fA-F]{6}$` accepts exactly the seven-character texts made of a `#` and six hexadecimal digits |
| EstadoForm.Validate | components/estadosMuestra/register-estado-button.tsx:18-23 | The name error appears exactly for an empty name and the colour error exactly for a malformed colour, each with its message |
| EstadoForm.DefaultsRefusedForNameOnly | components/estadosMuestra/register-estado-button.tsx:31-34 | The untouched form is refused for its empty name only |
| EstadoForm.MalformedColorsRefused | components/estadosMuestra/register-estado-button.tsx:20-22 | A colour of the wrong length or without its `#` is refused |
| AnalisisForm.MenuMatchesServerKinds | components/analisis/register-analisis-button.tsx:19 | The menu offers exactly the seven kinds the database accepts |
| AnalisisForm.AllComplete | components/analisis/register-analisis-button.tsx:25-29 | Every field row has a name, a unit and a reference value |
| AnalisisForm.Validate | components/analisis/register-analisis-button.tsx:21-30 | The form submits exactly with a name, one of the seven kinds and at least one row, every row complete; what it sends keeps the inputs and the chosen kind |
| AnalisisForm.BlankRowRefused | components/analisis/register-analisis-button.tsx:25-29 | Any blank field row makes the form refuse |
| AnalisisForm.DefaultsRefused | components/analisis/register-analisis-button.tsx:38-42 | The untouched form is refused |
| AnalisisForm.CamposArray.constructor | components/analisis/register-analisis-button.tsx:41 | The form opens with one blank row |
| AnalisisForm.CamposArray.Append | components/analisis/register-analisis-button.tsx:85 | "Añadir Campo" adds a blank row at the end |
| AnalisisForm.CamposArray.Remove | components/analisis/register-analisis-button.tsx:81 | A row's remove button does nothing at one row; otherwise it removes exactly that row, so at least one row remains |
| AnalisisForm.AppendThenRemoveLast | components/analisis/register-analisis-button.tsx:81-85 | Adding a row and removing it again gives back the rows as they were |

## Left out

- The webhook endpoint that verifies the identity provider's signature and routes its events is not part of this model. `Users.UpsertFromClerk` and `Users.DeleteFromClerk` are called directly with the event's data. The event data is reduced to the four fields the upsert reads.
- The thin create, read, update and delete handlers for clients, statuses, analyses and notes are not modelled. Neither is the mutation behind the status and analysis forms; the forms are modelled up to the values they send.
- The notes table, the PDF generator and all rendering, toasts and console output are not modelled.
- `SampleActions.ActionControls` does not model that the source's action cell evaluates `muestra.resultados.map` for the edit form's default values on every render (components/muestras/muestra-actions.tsx:56), so a sample without a result list breaks its whole action cell there, delete and details included; in the model only `SampleActions.LoadForm` fails for such a sample.
- `Promise.all` runs its deletes and reads concurrently. The model runs them one after another, which gives the same tables because the ids are distinct.
- A mutation that throws halfway commits nothing. The model checks the failing case first instead of rolling back.
- Clocks are parameters: `now` for every timestamp.
- The dashboard's `new Date()` is reduced to a day number with its weekday, day of month and day of year. Time zones and daylight-saving shifts are not modelled: a day is 86 400 000 ms.
- `Dashboard.GetDashboardStats` takes its four thresholds as inputs. `Dashboard.ThresholdsFor` computes them from the date.
- `Text.ToLower` models `toLowerCase` on ASCII letters only; Unicode case folding is left out. `trim` uses ECMAScript's full set of white space and line terminators.
- JavaScript numbers are modelled as unbounded integers, so fractional and non-finite numbers are left out, and so is the loss of precision above 2^53.
- `ScanSample.IntToString` always prints plain decimal digits, while JavaScript's `String(n)` switches to exponent form from 1e21 on; such numbers are not modelled.
- `ScanSample.FindById` models a document id as the decimal text of a number. The provider's real id format is not modelled.
- Only the `userAuth` slot of the browser's local storage is modelled. JSON parsing is reduced to three outcomes: nothing stored, unparsable, or an object with optional `role`, `roleName` and `permissions` fields.
- The camera and the QR decoder are left out. A scan is its decoded text or an error.
- `ScanSample.ScanState.HandleScanSuccess` includes the form reset that the source runs in an effect after the selection changes.
- The `min(1)` check on the status id in both edit forms is not modelled, because the status always comes from the select of existing statuses.
- The open and closed flags of the edit, delete and details dialogs of the sample actions are not modelled. The scan button's edit dialog is open exactly while a sample is selected.
- `PermissionGate.RedirectTimer` models one mount of the notice. A router change that reschedules the timer is not modelled.
- `AccessAdminPage.PageIsContiguousSlice` states nothing for page numbers below 1, which `AccessAdminPage.UserList` never reaches.
- `Users.UpsertFromClerk` implements the corrected, `clerkId`-keyed upsert (see Findings). The code as written is `Users.Upsert`.

## Findings

| source | as written | input that shows it | evidently intended | confidence | as-written member | corrected member |
|---|---|---|---|---|---|---|
| convex/users.ts:25-37 | `upsertFromClerk`, which handles both the create and the update event, looks the user up by email and on a match patches only the name. | Existing user `{clerkId "user_1", correo "ana@lab.mx"}`; a `user.updated` event with id "user_1" and first email "ana@correo.mx". No user has the new email, so a second user with `clerkId` "user_1" is inserted. After that the resolver's and the point check's `.unique()` on `clerkId` throw, and so does the delete event for that user. | Look the user up by `clerkId` and update the email with the name, so each `clerkId` keeps exactly one user. | not executed | Users.EmailChangeDuplicatesClerkId | Users.UpsertByClerkId |
