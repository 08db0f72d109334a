# Training portal client — a Dafny model

This project models the client of a compliance-training portal. Administrators
and managers publish trainings, assign them to users and manage departments
and user accounts. Every user sees their own assignments and profile. The
model covers:

- **The Redux state.** The training, department and user-management slices
  are each a class whose methods are the reducer cases. Every case states the
  whole new state. The list updates (prepend or append on create,
  replace-first on update, filter on delete) are proved to keep record ids
  unique.
- **The admin service.** It builds the user-list query string: the truthy
  parameters, in a fixed order, with numbers rendered in decimal. It also
  normalises the response and builds the per-user request paths.
- **The date utilities.** Days remaining is a ceiling division of the time to
  the deadline. The expiry, due-soon and colour classification is built on it.
- **The pages.** Each validation is modelled as a map of per-field outcomes,
  and each is proved to accept a form exactly when the form meets every rule.
  These pages are modelled: Trainings, Profile, CreateUser, UserEdit,
  UserDetail, CreateTraining and CreateDepartment.
  - The submit guards are modelled as methods on a shared form object.
  - The CreateTraining page also has its assign-user toggle and its
    department filter.
  - The view switches are modelled: spinner, not found, unauthorised and the
    page itself.
- **The status badge.**
- **The navigation header.**
- **The route table of the application shell.** The model includes its
  guards, its redirects and when the stored session is reloaded.

Helper modules:
- `Wrappers`: `Option`.
- `Domain`: the entities and their record keys.
- `Text`: JavaScript's `trim`, the email regular expression, `split('T')[0]`
  and decimal rendering.
- `ListOps`: `findIndex`, replace-first, `filter`, and their uniqueness
  lemmas.
- `Forms`: the shared field map, the message helpers and the form object.

The model follows the code wherever the design text says otherwise:

- **Expiry.** A training counts as expired only when the deadline passed a
  full day ago. The days remaining are rounded up, and expiry means fewer than
  zero days. So a deadline that passed an hour ago is still "Expiring Soon"
  (`TrainingsPage.ExpiredOnlyAfterFullDay`).
- **Where created records go.** Creating a training or a user prepends the
  record (`unshift`). Creating a department appends it (`push`).
- **Record keys.** Departments in the slice are keyed by the database `_id`.
  The profile page looks up a user's department by the public `id`, so with
  departments that carry only `_id` it shows "Unknown Department"
  (`ProfilePage.LookupNeedsPublicIds`).
- **Routes.** The shell declares only one-level routes. The pages' own links
  to creation forms, edit forms and detail pages (`/trainings/create`,
  `/users/{id}/edit`, …) therefore land on the not-found page
  (`AppRoutes.PageLinksUnrouted`).
- **Placeholders.** The shell renders placeholder content for `/trainings`,
  `/users`, `/departments` and `/profile`. Its route model therefore speaks of
  the path it shows, not of the page components.
- **Today's date.** The form parses the typed date as midnight UTC and compares
  it with local midnight. In a zone east of UTC, today's date therefore passes
  as a future date; elsewhere it is refused
  (`CreateTrainingPage.TodayRefusedUnlessEastOfUtc`).
- **Password length.** The six-character minimum counts UTF-16 code units, as
  JavaScript's `length` does, so a character outside the Basic Multilingual
  Plane counts twice (`CreateUserPage.AstralPasswordLongEnough`).
- **Unparseable dates.** A last date that does not parse is an invalid date.
  Every comparison with it is false, so the future-date rule lets it through
  (`CreateTrainingPage.UnparsedDateNotChecked`).

## Model

| member | source | states |
|---|---|---|
| AsyncThunk.RejectionMessage | src/store/trainingSlice.ts:19-29 | The rejection message is the server's message when it is non-empty, the operation's fallback otherwise, and never empty when the fallback is not |
| TrainingSlice.Fallback | src/store/trainingSlice.ts:26 | Every operation's fallback error message is non-empty |
| TrainingSlice.FallbacksDistinct | src/store/trainingSlice.ts:26-86 | The six thunks' fallback messages are pairwise different, so the message says which operation failed |
| TrainingSlice.RejectionNeverBlank | src/store/trainingSlice.ts:113-116 | A rejected training request always leaves a non-empty error, whatever the server sent |
| TrainingSlice.TrainingState.constructor | src/store/trainingSlice.ts:12-17 | The initial state: no trainings, no current training, not loading, no error |
| TrainingSlice.TrainingState.ClearError | src/store/trainingSlice.ts:95-97 | Clears the error and changes nothing else |
| TrainingSlice.TrainingState.ClearCurrentTraining | src/store/trainingSlice.ts:98-100 | Clears the current training and changes nothing else |
| TrainingSlice.TrainingState.Pending | src/store/trainingSlice.ts:105-108 | Every pending case sets loading and clears the error, keeping the data |
| TrainingSlice.TrainingState.Rejected | src/store/trainingSlice.ts:113-116 | Every rejected case stops loading and stores the message, keeping the data |
| TrainingSlice.TrainingState.FetchAllFulfilled | src/store/trainingSlice.ts:109-112 | The list becomes the payload; loading stops |
| TrainingSlice.TrainingState.FetchByIdFulfilled | src/store/trainingSlice.ts:122-125 | The current training becomes the payload; the list is kept |
| TrainingSlice.TrainingState.CreateFulfilled | src/store/trainingSlice.ts:135-139 | The new training is prepended, every old one shifts by one, and ids stay unique when the new id was not present |
| TrainingSlice.TrainingState.UpdateFulfilled | src/store/trainingSlice.ts:149-160 | The first training with the payload's id is replaced (no change when none has it), the length is kept, the current training is replaced when its id matches, and ids stay unique |
| TrainingSlice.TrainingState.AssignUsersFulfilled | src/store/trainingSlice.ts:188-199 | The same replace-first update for an assignment, with the same guarantees |
| TrainingSlice.TrainingState.DeleteFulfilled | src/store/trainingSlice.ts:170-178 | Every training with the id is removed, none remains, the current training is cleared when it had that id, and ids stay unique |
| DepartmentSlice.Fallback | src/store/departmentSlice.ts:26 | Every operation's fallback error message is non-empty |
| DepartmentSlice.FallbacksDistinct | src/store/departmentSlice.ts:26-74 | The five thunks' fallback messages are pairwise different |
| DepartmentSlice.RejectionNeverBlank | src/store/departmentSlice.ts:101-104 | A rejected department request always leaves a non-empty error |
| DepartmentSlice.DepartmentState.constructor | src/store/departmentSlice.ts:12 | The initial state: no departments, none current, not loading, no error |
| DepartmentSlice.DepartmentState.ClearError | src/store/departmentSlice.ts:83-85 | Clears the error and changes nothing else |
| DepartmentSlice.DepartmentState.ClearCurrentDepartment | src/store/departmentSlice.ts:86-88 | Clears the current department and changes nothing else |
| DepartmentSlice.DepartmentState.Pending | src/store/departmentSlice.ts:93-96 | Every pending case sets loading and clears the error, keeping the data |
| DepartmentSlice.DepartmentState.Rejected | src/store/departmentSlice.ts:101-104 | Every rejected case stops loading and stores the message, keeping the data |
| DepartmentSlice.DepartmentState.FetchAllFulfilled | src/store/departmentSlice.ts:97-100 | The list becomes the payload; loading stops |
| DepartmentSlice.DepartmentState.FetchByIdFulfilled | src/store/departmentSlice.ts:110-113 | The current department becomes the payload; the list is kept |
| DepartmentSlice.DepartmentState.CreateFulfilled | src/store/departmentSlice.ts:123-126 | The new department is appended, every old one keeps its place, and `_id`s stay unique when the new one was not present |
| DepartmentSlice.DepartmentState.UpdateFulfilled | src/store/departmentSlice.ts:136-145 | The first department with the payload's `_id` is replaced (no change when none has it), the current one is replaced when its `_id` matches, and `_id`s stay unique |
| DepartmentSlice.DepartmentState.DeleteFulfilled | src/store/departmentSlice.ts:155-161 | Every department with the `_id` is removed, none remains, the current one is cleared when it matches, and `_id`s stay unique |
| UserManagementSlice.Fallback | src/store/userManagementSlice.ts:46 | Every operation's fallback error message is non-empty |
| UserManagementSlice.FallbacksDistinct | src/store/userManagementSlice.ts:46-82 | The four thunks' fallback messages are pairwise different |
| UserManagementSlice.RejectionNeverBlank | src/store/userManagementSlice.ts:119-122 | A rejected user request always leaves a non-empty error |
| UserManagementSlice.DefaultFilters | src/store/userManagementSlice.ts:30-33 | The default filters are exactly page 1 and limit 10 |
| UserManagementSlice.MergeFilters | src/store/userManagementSlice.ts:97-99 | The spread merge: the payload's keys win, every other key keeps the old filter value, and the keys are the union |
| UserManagementSlice.MergeIdempotent | src/store/userManagementSlice.ts:97-99 | Setting the same filters twice is setting them once |
| UserManagementSlice.MergeEmpty | src/store/userManagementSlice.ts:97-99 | Setting no filters changes nothing |
| UserManagementSlice.MergeAssociative | src/store/userManagementSlice.ts:97-99 | Two successive filter updates equal one update with their merge |
| UserManagementSlice.DefaultPageAndLimit | src/store/userManagementSlice.ts:30-33 | The default filters contribute page=1 then limit=10 to the query |
| UserManagementSlice.DefaultQuery | src/services/adminService.ts:14-23 | With the default filters the request's query string is exactly `page=1&limit=10` |
| UserManagementSlice.UserManagementState.constructor | src/store/userManagementSlice.ts:23-33 | The initial state: no users, no current user, no pagination, not loading, no error, default filters |
| UserManagementSlice.UserManagementState.ClearError | src/store/userManagementSlice.ts:91-93 | Clears the error and changes nothing else |
| UserManagementSlice.UserManagementState.ClearCurrentUser | src/store/userManagementSlice.ts:94-96 | Clears the current user and changes nothing else |
| UserManagementSlice.UserManagementState.SetFilters | src/store/userManagementSlice.ts:97-99 | The filters become the merge of the old filters and the payload; nothing else changes |
| UserManagementSlice.UserManagementState.ResetFilters | src/store/userManagementSlice.ts:100-105 | The filters return to the defaults; nothing else changes |
| UserManagementSlice.UserManagementState.Pending | src/store/userManagementSlice.ts:110-113 | Every pending case sets loading and clears the error, keeping data and filters |
| UserManagementSlice.UserManagementState.Rejected | src/store/userManagementSlice.ts:119-122 | Every rejected case stops loading and stores the message |
| UserManagementSlice.UserManagementState.FetchUsersFulfilled | src/store/userManagementSlice.ts:114-118 | The list and the pagination become the payload's |
| UserManagementSlice.UserManagementState.FetchUserByIdFulfilled | src/store/userManagementSlice.ts:128-131 | The current user becomes the payload |
| UserManagementSlice.UserManagementState.UpdateStatusFulfilled | src/store/userManagementSlice.ts:141-152 | The first user with the payload's id is replaced (no change when none has it), the current user is replaced when its id matches, and ids stay unique |
| UserManagementSlice.UserManagementState.CreateUserFulfilled | src/store/userManagementSlice.ts:162-166 | The new user is prepended, every old one shifts by one, and ids stay unique when the new id was not present |
| AdminService.Rank | src/services/adminService.ts:14-18 | A parameter's position in the fixed order page, limit, status, role, search; any other key ranks after all of them |
| AdminService.IncludedSpec | src/services/adminService.ts:14-20 | Up to any prefix of the order, the query holds exactly the truthy parameters, each rendered, in the fixed order |
| AdminService.BuildQuery | src/services/adminService.ts:12-20 | The appends build a query in which every entry is a truthy parameter, every truthy parameter appears, and the order is page, limit, status, role, search |
| AdminService.EncodeQuery | src/services/adminService.ts:22 | The encoded query string is empty exactly when no parameter was appended |
| AdminService.UsersUrlShape | src/services/adminService.ts:23 | The URL carries `?` and the query exactly when the query is not empty |
| AdminService.UsersRequestUrl | src/services/adminService.ts:12-23 | The URL is the list path with the query of the truthy parameters: the bare `/admin/users` exactly when no known parameter is truthy, `/admin/users?` followed by the encoded pairs otherwise |
| AdminService.UnwrapUsers | src/services/adminService.ts:29-36 | A successful body is unwrapped to its data and pagination; any other body is returned as sent |
| AdminService.UserPath | src/services/adminService.ts:40-43 | The user path ends with the id |
| AdminService.StatusPath | src/services/adminService.ts:46-49 | The status path is the user path extended by `/status` |
| AdminService.StatusUpdate | src/services/adminService.ts:46-49 | The status request goes to the user's status path and carries the new status |
| AdminService.PathsIdentifyUser | src/services/adminService.ts:40-49 | Different ids give different user and status paths, and the status path extends the user path |
| DateUtils.CeilDiv | src/utils/dateUtils.ts:33-35 | `Math.ceil` of a division: the least integer whose multiple reaches the dividend |
| DateUtils.DaysRemaining | src/utils/dateUtils.ts:30-36 | The days remaining are the time to the deadline in days, rounded up; an invalid date gives none |
| DateUtils.IsExpired | src/utils/dateUtils.ts:41-43 | Expired exactly when a day count exists and is negative |
| DateUtils.IsDueSoon | src/utils/dateUtils.ts:48-51 | Due soon means zero to thirty days remain, and a due-soon training is never expired |
| DateUtils.StatusColor | src/utils/dateUtils.ts:56-63 | Red exactly when expired, orange for zero to seven days, yellow or orange exactly when due soon, green otherwise |
| DateUtils.ExpiredIffFullDayPassed | src/utils/dateUtils.ts:41-43 | Expired exactly when the deadline passed at least a full day ago |
| DateUtils.DueSoonWindow | src/utils/dateUtils.ts:48-51 | Due soon exactly when the deadline lies between one day ago (exclusive) and thirty days ahead |
| DateUtils.DaysRemainingMonotone | src/utils/dateUtils.ts:30-36 | A later deadline never has fewer days remaining |
| DateUtils.InvalidDateIsGreen | src/utils/dateUtils.ts:56-63 | An invalid date is neither expired nor due soon and shows green |
| StatusBadge.StatusClass | src/components/StatusBadge.tsx:9-22 | A known status gets its own class; any other status gets the pending class |
| StatusBadge.StatusText | src/components/StatusBadge.tsx:24-37 | The text is "Unknown" exactly for an unknown status, and never empty |
| StatusBadge.TextsDistinct | src/components/StatusBadge.tsx:24-37 | Different known statuses have different texts |
| StatusBadge.ClassesDistinct | src/components/StatusBadge.tsx:9-22 | Different known statuses have different classes |
| StatusBadge.UnknownAsymmetry | src/components/StatusBadge.tsx:9-37 | An unknown status looks pending but does not read pending |
| TrainingsPage.DiffDays | src/pages/Trainings.tsx:28-31 | The page's own day count is the days-remaining of the date utilities |
| TrainingsPage.StatusText | src/pages/Trainings.tsx:42-54 | "Expired", "Expiring Soon" and "Active" exactly when the utilities call it expired, due soon or neither |
| TrainingsPage.StatusStyle | src/pages/Trainings.tsx:28-40 | The badge style agrees with the text and with the utilities' colour |
| TrainingsPage.StatusTextBoundaries | src/pages/Trainings.tsx:42-54 | 30 days is expiring soon, 31 active, 0 expiring soon, -1 expired, an invalid date active |
| TrainingsPage.ExpiredOnlyAfterFullDay | src/pages/Trainings.tsx:42-54 | "Expired" exactly after a full day past the deadline; less than a day past it still reads "Expiring Soon" |
| TrainingsPage.DepartmentName | src/pages/Trainings.tsx:56-61 | A bare department id is shown as is; an embedded department shows its name, or "Unknown Department" |
| TrainingsPage.CanManageTrainings | src/pages/Trainings.tsx:81 | The create and edit links are for a logged-in administrator or manager |
| TrainingsPage.ShowFullPageSpinner | src/pages/Trainings.tsx:63-69 | The full-page spinner shows exactly while loading with no trainings |
| UserStyles.UserStatusStyle | src/pages/UserDetail.tsx:54-65 | Active green, locked yellow, close red, anything else gray (the same helper as Profile.tsx lines 133-144) |
| UserStyles.StatusStylesDistinct | src/pages/UserDetail.tsx:54-65 | The three account statuses have different styles |
| UserStyles.RoleStyle | src/pages/UserDetail.tsx:67-78 | Administrator purple, manager blue, anything else gray (the same helper as Profile.tsx lines 146-157) |
| UserStyles.StaffLooksUnknown | src/pages/UserDetail.tsx:67-78 | A staff member and an unknown role look the same |
| UserViews.Teardown | src/pages/UserDetail.tsx:21-24 | Leaving a user page clears the current user and nothing else |
| UserDetailPage.DetailView | src/pages/UserDetail.tsx:88-111 | The page shows when a user is loaded, the spinner while loading without one, "not found" otherwise |
| UserDetailPage.ShowStatusActions | src/pages/UserDetail.tsx:274 | The status actions are shown to a logged-in administrator looking at another account |
| UserDetailPage.NoSelfStatusChange | src/pages/UserDetail.tsx:274 | An administrator never sees the status actions on their own account |
| UserDetailPage.StatusButtons | src/pages/UserDetail.tsx:280-329 | Exactly the status targets other than the current status get a button, without repeats |
| UserDetailPage.ConfirmVerb | src/pages/UserDetail.tsx:39 | The confirmation verb is activate, lock or close, one per target |
| UserDetailPage.ConfirmMessage | src/pages/UserDetail.tsx:39 | The confirmation question built around the verb |
| UserDetailPage.ConfirmMessagesDistinct | src/pages/UserDetail.tsx:39 | Different targets ask different confirmation questions |
| UserDetailPage.StatusUpdate | src/pages/UserDetail.tsx:36-52 | A status update is dispatched exactly when a user and a route id are present and the user confirmed, with that id and status |
| UserEditPage.Prefill | src/pages/UserEdit.tsx:57-71 | The form is filled from the loaded user, the birth date cut at `T`, a present department or manager id copied and a missing one as empty text |
| UserEditPage.Outcomes | src/pages/UserEdit.tsx:82-113 | One check per validated field |
| UserEditPage.PassedEmail | src/pages/UserEdit.tsx:89-93 | A form that passes has an email matching the pattern |
| UserEditPage.PassedDetails | src/pages/UserEdit.tsx:85-111 | A form that passes has no blank name, employee number, phone or address, and a birth date |
| UserEditPage.RuleChecksPass | src/pages/UserEdit.tsx:82-113 | A form meeting every rule passes each check |
| UserEditPage.PassesIffAcceptable | src/pages/UserEdit.tsx:82-113 | Every check passes exactly when every rule holds |
| UserEditPage.Validate | src/pages/UserEdit.tsx:82-113 | Each field's message is its check's outcome; no messages exactly when every rule holds |
| UserEditPage.EditView | src/pages/UserEdit.tsx:168-211 | The form shows only for a loaded user the logged-in user may edit (an administrator or themselves); otherwise unauthorised, spinner or not found |
| UserEditPage.ViewsAgree | src/pages/UserEdit.tsx:168-191 | The edit page's spinner and not-found states are the detail page's |
| UserEditPage.NoFormWithoutFocus | src/pages/UserEdit.tsx:168-191 | Without a loaded user the edit page shows the spinner or not found |
| UserEditPage.CanEdit | src/pages/UserEdit.tsx:194 | An administrator or the account's own user may edit it |
| UserEditPage.StatusActionsImplyEdit | src/pages/UserEdit.tsx:194 | Whoever may change a status may also edit the user |
| UserEditPage.Submit | src/pages/UserEdit.tsx:133-162 | The messages become the validation result; the page navigates to the user's detail page exactly when the form is valid and a user and a non-empty route id are present |
| ProfilePage.InitialValues | src/pages/Profile.tsx:22-28 | Every profile field starts empty |
| ProfilePage.Prefill | src/pages/Profile.tsx:35-45 | The form is filled from the user, the birth date cut at `T` |
| ProfilePage.PrefillDateOnly | src/pages/Profile.tsx:42 | An ISO timestamp is prefilled as its date part |
| ProfilePage.Outcomes | src/pages/Profile.tsx:47-74 | One check per profile field |
| ProfilePage.PassedEmail | src/pages/Profile.tsx:54-58 | A form that passes has an email matching the pattern |
| ProfilePage.PassedDetails | src/pages/Profile.tsx:50-70 | A form that passes has no blank name, phone or address, and a birth date |
| ProfilePage.RuleChecksPass | src/pages/Profile.tsx:47-74 | A form meeting every rule passes each check |
| ProfilePage.PassesIffAcceptable | src/pages/Profile.tsx:47-74 | Every check passes exactly when every rule holds |
| ProfilePage.Validate | src/pages/Profile.tsx:47-74 | Each field's message is its check's outcome; no messages exactly when every rule holds |
| ProfilePage.DepartmentName | src/pages/Profile.tsx:167-171 | "Not assigned" without an id, the matching department's name, or "Unknown Department" |
| ProfilePage.LookupNeedsPublicIds | src/pages/Profile.tsx:167-171 | With departments that carry no public id, every assigned user reads "Unknown Department" |
| ProfilePage.ProfileEditor.constructor | src/pages/Profile.tsx:20-29 | The editor opens with empty fields, no messages, not editing |
| ProfilePage.ProfileEditor.UserChanged | src/pages/Profile.tsx:35-45 | A loaded user refills the form; messages and mode are kept |
| ProfilePage.ProfileEditor.Edit | src/pages/Profile.tsx:94-96 | Editing starts |
| ProfilePage.ProfileEditor.Cancel | src/pages/Profile.tsx:98-110 | Editing stops, the messages are cleared and the form is refilled from the user |
| ProfilePage.ProfileEditor.Submit | src/pages/Profile.tsx:112-131 | The messages become the validation result; the form values are sent exactly when valid |
| CreateUserPage.InitialValues | src/pages/CreateUser.tsx:30-42 | Every field starts empty except the role, which starts as staff |
| CreateUserPage.PasswordMessage | src/pages/CreateUser.tsx:68-72 | A message exactly for passwords of fewer than six UTF-16 code units (JavaScript's `length`): required when empty, too short otherwise |
| CreateUserPage.AstralPasswordLongEnough | src/pages/CreateUser.tsx:70 | Three characters outside the Basic Multilingual Plane count as six units and pass the length rule |
| CreateUserPage.BmpPasswordRule | src/pages/CreateUser.tsx:70 | For text inside the Basic Multilingual Plane the rule is at least six characters |
| CreateUserPage.ConfirmMessage | src/pages/CreateUser.tsx:74-78 | A message exactly when the confirmation is empty or differs from the password |
| CreateUserPage.Outcomes | src/pages/CreateUser.tsx:51-94 | One check per validated field |
| CreateUserPage.PassedCredentials | src/pages/CreateUser.tsx:62-78 | A form that passes has a pattern-matching email, a password of six or more UTF-16 code units and a matching confirmation |
| CreateUserPage.PassedDetails | src/pages/CreateUser.tsx:54-90 | A form that passes has no blank employee number, name, phone or address, and a birth date |
| CreateUserPage.CredentialChecksPass | src/pages/CreateUser.tsx:62-78 | Valid credentials pass their checks |
| CreateUserPage.DetailChecksPass | src/pages/CreateUser.tsx:54-90 | Filled details pass their checks |
| CreateUserPage.PassesIffAcceptable | src/pages/CreateUser.tsx:51-94 | Every check passes exactly when every rule holds |
| CreateUserPage.Validate | src/pages/CreateUser.tsx:51-94 | Each field's message is its check's outcome; no messages exactly when every rule holds |
| CreateUserPage.OrUndefined | src/pages/CreateUser.tsx:124-135 | Optional ids are sent as undefined exactly when empty, and as typed otherwise |
| CreateUserPage.Payload | src/pages/CreateUser.tsx:124-135 | The registration payload: the form's fields, with empty optional ids as undefined |
| CreateUserPage.FormOf | src/pages/CreateUser.tsx:124-135 | Reading a payload back gives every field of the form |
| CreateUserPage.PayloadLosesNothing | src/pages/CreateUser.tsx:124-135 | The payload keeps every field: reading it back gives the form, the confirmation being the password |
| CreateUserPage.Submit | src/pages/CreateUser.tsx:114-147 | The messages become the validation result; the payload is dispatched exactly when valid |
| CreateTrainingPage.InitialValues | src/pages/CreateTraining.tsx:25-34 | Every text field starts empty |
| CreateTrainingPage.LastDateMessage | src/pages/CreateTraining.tsx:56-66 | A message exactly when the date is empty or parses to no later than the start of today |
| CreateTrainingPage.Outcomes | src/pages/CreateTraining.tsx:41-70 | One check per validated field |
| CreateTrainingPage.PassedRules | src/pages/CreateTraining.tsx:41-70 | A form that passes has no blank name, department or content, and a typed date not in the past |
| CreateTrainingPage.RuleChecksPass | src/pages/CreateTraining.tsx:41-70 | A form meeting every rule passes each check |
| CreateTrainingPage.PassesIffAcceptable | src/pages/CreateTraining.tsx:41-70 | Every check passes exactly when every rule holds |
| CreateTrainingPage.Validate | src/pages/CreateTraining.tsx:41-70 | Each field's message is its check's outcome; no messages exactly when every rule holds |
| CreateTrainingPage.PastDateRefused | src/pages/CreateTraining.tsx:58-65 | A date at or before the start of today gets the future-date message |
| CreateTrainingPage.TodayIsNotFuture | src/pages/CreateTraining.tsx:58-65 | A date parsed to exactly the start of today is refused |
| CreateTrainingPage.TodayRefusedUnlessEastOfUtc | src/pages/CreateTraining.tsx:59-63 | Today's date, parsed as midnight UTC, is refused exactly when the local zone is not east of UTC |
| CreateTrainingPage.UnparsedDateNotChecked | src/pages/CreateTraining.tsx:58-65 | An unparseable date gets no date message |
| CreateTrainingPage.Toggle | src/pages/CreateTraining.tsx:90-97 | The toggled id is assigned afterwards exactly when it was not before; every other id is untouched |
| CreateTrainingPage.ToggleTwiceAbsent | src/pages/CreateTraining.tsx:90-97 | Toggling an unassigned id twice restores the list |
| CreateTrainingPage.ToggleTwicePresent | src/pages/CreateTraining.tsx:90-97 | Toggling an assigned id twice moves it to the end |
| CreateTrainingPage.ToggleKeepsDistinct | src/pages/CreateTraining.tsx:90-97 | The assigned list never holds an id twice |
| CreateTrainingPage.InDepartment | src/pages/CreateTraining.tsx:127 | A user belongs to the chosen department when their department id is it |
| CreateTrainingPage.FilteredUsers | src/pages/CreateTraining.tsx:126-128 | With a department chosen, exactly the users of that department; with none, every user |
| CreateTrainingPage.FilteredUsersAppend | src/pages/CreateTraining.tsx:126-128 | The filter keeps list order |
| CreateTrainingPage.FilteredUsersSubMultiset | src/pages/CreateTraining.tsx:126-128 | The filter never invents or repeats a user |
| CreateTrainingPage.TrainingForm.constructor | src/pages/CreateTraining.tsx:25-34 | The form opens empty with no messages and no assigned user |
| CreateTrainingPage.TrainingForm.UserSelection | src/pages/CreateTraining.tsx:90-97 | The assigned list is toggled and stays free of repeats; texts and messages are untouched |
| CreateTrainingPage.TrainingForm.Submit | src/pages/CreateTraining.tsx:99-119 | The messages become the validation result; the training is dispatched exactly when valid, with the form's texts and assigned ids |
| CreateDepartmentPage.InitialValues | src/pages/CreateDepartment.tsx:18-21 | Both fields start empty |
| CreateDepartmentPage.Outcomes | src/pages/CreateDepartment.tsx:26-39 | One check per field |
| CreateDepartmentPage.Validate | src/pages/CreateDepartment.tsx:26-39 | Each field's message is its check's outcome; no messages exactly when neither field is blank |
| CreateDepartmentPage.MessagesIndependent | src/pages/CreateDepartment.tsx:29-35 | Each field gets its own message exactly when it is blank, independently of the other |
| CreateDepartmentPage.Submit | src/pages/CreateDepartment.tsx:59-79 | The messages become the validation result; the department is dispatched exactly when valid, with non-blank name and description |
| Forms.BlankIsTrimEmpty | src/pages/CreateDepartment.tsx:29 | A value is blank exactly when `trim()` leaves the empty string |
| Forms.RequiredMessage | src/pages/CreateDepartment.tsx:29-31 | The required check fails exactly for a blank value, with its message |
| Forms.NonEmptyMessage | src/pages/Profile.tsx:68-70 | The untrimmed check fails exactly for the empty string |
| Forms.EmailError | src/pages/Profile.tsx:54-58 | No message exactly when the email matches the pattern; required for blank, invalid otherwise |
| Forms.Messages | src/pages/CreateDepartment.tsx:26-39 | The message object holds exactly the failed checks, and is empty exactly when every check passes |
| Forms.FormState.constructor | src/pages/CreateDepartment.tsx:18-24 | The form opens with the given values and no messages |
| Forms.FormState.InputChange | src/pages/CreateDepartment.tsx:41-57 | The typed field takes the value; its message is dropped when it had one, and the message object is otherwise exactly as before |
| Forms.FormState.SetErrors | src/pages/CreateDepartment.tsx:37-38 | The messages are replaced and the values kept |
| Text.TrimStart | src/pages/Profile.tsx:50 | Only leading white space is removed, and the result does not start with white space |
| Text.TrimEnd | src/pages/Profile.tsx:50 | Only trailing white space is removed, and the result does not end with white space |
| Text.Trim | src/pages/Profile.tsx:50 | `trim()` is the slice of the text between its leading and trailing white space, and that slice neither starts nor ends with white space |
| Text.Utf16Length | src/pages/CreateUser.tsx:70 | JavaScript's `length`: between the character count and twice it, zero exactly for the empty string |
| Text.Utf16LengthBmp | src/pages/CreateUser.tsx:70 | Inside the Basic Multilingual Plane the length is the character count |
| Text.Utf16LengthAppend | src/pages/CreateUser.tsx:70 | The length of a concatenation is the sum of the lengths |
| Text.TrimEmptyIffBlank | src/pages/Profile.tsx:50 | Trimming leaves nothing exactly when every character is white space |
| Text.BeforeFirst | src/pages/Profile.tsx:42 | The part before the first separator: a prefix without the separator, followed by the separator or the end |
| Text.BeforeFirstSplit | src/pages/Profile.tsx:42 | A date followed by `T` and a time gives back the date |
| Text.IsValidEmail | src/pages/Profile.tsx:56 | The email test computed without backtracking: no white space, one `@` not first, an inner `.` after it |
| Text.IsValidEmailIffPattern | src/pages/Profile.tsx:56 | The executable email test agrees with the regular expression's pattern |
| Text.PatternNotBlank | src/pages/Profile.tsx:54-56 | A matching email is never blank, so the required message and the pattern message never meet |
| Text.DecimalRoundTrip | src/services/adminService.ts:15-16 | `toString()` of a page or limit reads back as the same number |
| Text.IntToString | src/services/adminService.ts:15-16 | The rendering is non-empty and signed exactly for negative numbers |
| ListOps.FindIndex | src/store/trainingSlice.ts:152 | `findIndex`: the first index with the key, or none exactly when no element has it |
| ListOps.ReplaceFirstSpec | src/store/trainingSlice.ts:152-155 | Only the first match is replaced; every other element and the length are kept |
| ListOps.ReplaceFirstAbsent | src/store/trainingSlice.ts:152-155 | An update whose id is in no element leaves the list unchanged |
| ListOps.ReplaceFirstKeepsUnique | src/store/trainingSlice.ts:152-155 | Replacing by key keeps keys unique |
| ListOps.Filter | src/store/trainingSlice.ts:173 | `filter` keeps exactly the elements that pass |
| ListOps.FilterAppend | src/store/trainingSlice.ts:173 | Filtering distributes over concatenation |
| ListOps.FilterKeepsAll | src/store/trainingSlice.ts:173 | A filter every element passes keeps the list |
| ListOps.FilterIdempotent | src/store/trainingSlice.ts:173 | Filtering twice is filtering once |
| ListOps.FilterSubMultiset | src/store/trainingSlice.ts:173 | Filtering only drops elements |
| ListOps.RemoveKey | src/store/trainingSlice.ts:173 | Every element with the key is removed and every other one kept |
| ListOps.RemoveKeyAbsent | src/store/trainingSlice.ts:173 | Deleting an id no element has leaves the list unchanged |
| ListOps.RemoveKeyAppend | src/store/trainingSlice.ts:173 | Deleting by key distributes over concatenation |
| ListOps.RemoveKeyKeepsUnique | src/store/trainingSlice.ts:173 | Removing by key keeps keys unique |
| ListOps.PrependKeepsUnique | src/store/trainingSlice.ts:138 | Prepending a new key keeps keys unique |
| ListOps.AppendKeepsUnique | src/store/departmentSlice.ts:125 | Appending a new key keeps keys unique |
| Header.Target | src/components/Header.tsx:29-75 | Every link points to a one-segment absolute path |
| Header.TargetsDistinct | src/components/Header.tsx:29-75 | No two links point to the same path |
| Header.NavLinks | src/components/Header.tsx:29-75 | Dashboard and my trainings for everyone; all trainings and compliance exactly for administrators and managers; departments and users exactly for administrators; no repeats |
| Header.Render | src/components/Header.tsx:16 | No bar without a user; otherwise the user's role's links |
| Header.LinksMonotone | src/components/Header.tsx:43-75 | A manager sees what staff sees, an administrator what a manager sees |
| Header.LinksStrictlyGrow | src/components/Header.tsx:43-75 | Each step up the roles adds a link |
| Header.UnknownRoleSeesStaffLinks | src/components/Header.tsx:43-75 | An unknown role sees the staff links |
| AppRoutes.GuardOf | src/App.tsx:32-140 | Every declared route path is absolute with one segment |
| AppRoutes.CanAccess | src/App.tsx:68 | The assumed role gate: every role when no roles are listed, membership otherwise |
| AppRoutes.CanAccessExamples | src/App.tsx:68-107 | A manager passes an administrator-or-manager gate, staff fails an administrator gate, an empty list admits all |
| AppRoutes.Resolve | src/App.tsx:32-152 | Not found exactly for unrouted paths other than `/`; a shown page is its routed path; every redirect goes to the dashboard |
| AppRoutes.ManagementPages | src/App.tsx:65-90 | All trainings and compliance open exactly for a logged-in administrator or manager |
| AppRoutes.AdminPages | src/App.tsx:91-116 | Departments and users open exactly for a logged-in administrator |
| AppRoutes.AnyRolePages | src/App.tsx:44-64 | Dashboard, my trainings and profile open for every logged-in user and for nobody else |
| AppRoutes.GuestPages | src/App.tsx:32-43 | Login and registration redirect a logged-in user to the dashboard and show otherwise |
| AppRoutes.RootRedirects | src/App.tsx:141 | The root redirects to the dashboard |
| AppRoutes.RoutesAreFlat | src/App.tsx:32-140 | No declared route has a second segment |
| AppRoutes.NestedPathsUnrouted | src/App.tsx:142-152 | A path with a second segment lands on the not-found page |
| AppRoutes.Unrouted | src/App.tsx:142-152 | A slash past the first character means not found |
| AppRoutes.PageLinksUnrouted | src/pages/Trainings.tsx:84 | The creation links, and the view, edit and detail links for a non-empty record id, have no route |
| AppRoutes.LinksMatchRoutes | src/components/Header.tsx:29-75 | A logged-in user sees a bar link exactly when its route shows the page to them |
| AppRoutes.ProfileLinkOpens | src/components/Header.tsx:87-91 | The profile icon opens its page for every logged-in user |
| AppRoutes.LogoutShowsLogin | src/components/Header.tsx:11-14 | After logout the bar disappears and the login page shows |
| AppRoutes.ManagementMatchesRoute | src/pages/Trainings.tsx:81 | The trainings page's management controls appear exactly for the users the `/trainings` route admits |
| AppRoutes.HeaderAgrees | src/App.tsx:29 | The shell draws the bar exactly when the bar renders something |
| AppRoutes.ShouldLoadUser | src/App.tsx:21-25 | The session is restored exactly when a token is held and no user is loaded |
| AppRoutes.LoadsOnlyWithoutUser | src/App.tsx:21-25 | With a user loaded the session is never restored again |

## Left out

- The network and the thunks' bodies. A thunk is modelled only through its rejection message and the reducer cases it triggers.
- Interleaving of concurrent requests. Each reducer case is an atomic state change.
- Timers. The 5-second `clearError` timers are the `ClearError` methods, without the delay.
- `window.confirm`. Its answer is a parameter (`confirmed`).
- `navigate`. Its target is the submit methods' result.
- Console logging.
- Date parsing, the clock and the time zone. The parsed instant, the current time and the start of today are integer-millisecond parameters.
- `formatDate` and `formatDateTime`. They are locale formatting, with no logic to verify.
- Percent-encoding of query values by `URLSearchParams`. Values are joined as they are.
- The router's case-insensitive and trailing-slash matching. Paths are matched exactly.
- `ProtectedRoute` and the auth slice. These files are not part of this model, and `AppRoutes.Admits` is an assumed reading of the role gate.
- What a refused route renders.
- JSX layout, CSS and icons. Only the class strings that encode a decision are kept.
- The simulated request in the user edit page's submit. Only the guard and the navigation are modelled.
- The profile page's `updateProfile` dispatch. The auth slice is not part of this model; the submit returns the values it would send.
- `store/index.ts`. It only wires the reducers.
- The `getTransactions` and `getAuditLogs` placeholders of the admin service. They have no logic.
- The `isSubmitting`, `isLoading` and `statusUpdateLoading` button states.
- The key insertion order of the messages object. Messages are a map from field to text.
- AdminService.UnwrapUsers: JavaScript truthiness of `success` is modelled as a boolean.
- Text.Utf16Length: a Dafny string holds Unicode scalar values, so a lone surrogate, which a JavaScript string may hold, is not representable.
