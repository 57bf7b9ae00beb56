# myminglz client core, modelled in Dafny

This project models the client-side core of the myminglz mobile web app (Next.js, React,
Supabase). It covers five groups:

- **Account flow.** The landing, sign-up, log-in and e-mail verification pages, the auth
  callback route, and the auth provider that loads the profile of a confirmed user. It also
  includes the three-step onboarding page that creates the profile.
- **Profile store.** Fetch, create, update and refresh of the signed-in user's profile row,
  and the username availability check.
- **Avatar pipeline.** The profile-image library and the sheet that drives it: compression
  and upload progress, the storage key, the upload and delete sequences, and the rollback
  when the database write fails.
- **Follow graph.** The follow button, the follower and following counts, and the follower
  and following lists.
- **Location and search.** The geolocation hook, the live-location map layer (tracking mode,
  throttled auto-pan, banner, accuracy circle) and the profile search hook.

One Dafny module stands for each source file. `Common` holds the shared records and string
operations. `Backend` holds the backend state the client reads and writes: the `profiles`
table as a sequence of rows, the `profile-images` bucket as a map from key to bytes, and the
`follows` table as a sequence of rows keyed by the (follower, following) pair.

Every backend call becomes an operation on that state. The caller picks the outcome with a
`fault: Option<Error>` parameter or an environment record. Each React hook or page becomes a
class whose fields are its state and refs. Effects, handlers, timers and callbacks become its
methods, and each method's `ensures` states the whole new state. The pure rules behind them
are functions, with lemmas about them: validation chains, redirect choice, query results,
counts, progress arithmetic and URI encoding.

`encodeURIComponent` and the query-string reading of the verification page are modelled
(UTF-8 percent encoding and decoding). This lets the model prove that the address the
sign-up page puts in the link is exactly the one the verification page reads back.

## Model

| member | source | states |
|---|---|---|
| Common.Trim | beta/src/app/auth/onboarding/page.tsx:56 | `trim` keeps a suffix of a prefix, and the result neither starts nor ends with ECMAScript whitespace |
| Common.TrimShape | beta/src/app/auth/onboarding/page.tsx:56 | `trim` returns the slice `s[i..j]` with only whitespace before `i` and from `j` on, and the slice neither starts nor ends with whitespace |
| Common.Utf16Length | beta/src/app/auth/onboarding/page.tsx:60 | `.length` counts UTF-16 code units: at least one and at most two per character |
| Common.Utf16LengthBmp | beta/src/app/auth/onboarding/page.tsx:60 | when every character lies in the Basic Multilingual Plane, `.length` is the number of characters |
| Common.BlankIffAllSpace | beta/src/hooks/useProfiles.ts:24 | `!s.trim()` holds exactly when every character is whitespace |
| Common.Lower | beta/src/app/auth/onboarding/page.tsx:190 | lower-casing keeps the length, lower-cases each ASCII letter and turns the Kelvin sign U+212A into `k`, as `toLowerCase` does; every other character is left alone |
| Common.ContainsIffOccurs | beta/src/hooks/useProfiles.ts:26 | the substring test holds exactly when the term occurs at some position |
| Common.NatToString | beta/src/lib/uploadProfileImage.ts:96 | a timestamp renders as a non-empty string of decimal digits |
| Backend.SetImage | beta/src/lib/uploadProfileImage.ts:99 | the image update changes only the image column, and only on rows with the id |
| Backend.ImageOfSetImage | beta/src/lib/uploadProfileImage.ts:99 | after the update the profile's image is the new value when the row exists, none otherwise |
| Backend.ImageOfSetImageOther | beta/src/lib/uploadProfileImage.ts:99 | the update leaves the image of every other profile unchanged |
| Backend.RowById | beta/src/hooks/useFollowList.ts:23 | the embedded profile is a table row with the edge's id, absent exactly when no row has it |
| Backend.EdgesOf | beta/src/hooks/useFollow.ts:20-25 | the pair lookup returns exactly the rows of the pair |
| Backend.DeletePair | beta/src/hooks/useFollow.ts:48-52 | the unfollow delete removes exactly the rows of the pair |
| Backend.DeletePairKeepsUnique | beta/src/hooks/useFollow.ts:48-52 | the delete keeps the pair key unique and leaves no row of the pair |
| Backend.AppendKeepsUnique | beta/src/hooks/useFollow.ts:62-66 | inserting a pair that is absent keeps the key unique |
| Backend.EdgesOfUnique | beta/src/hooks/useFollow.ts:20-25 | under the key, the `maybeSingle` lookup sees at most one row, and exactly one when the pair exists |
| AvatarUpload.AvatarKey | beta/src/lib/uploadProfileImage.ts:65 | the storage key is the profile id followed by `/avatar.webp` |
| AvatarUpload.CacheBustedUrl | beta/src/lib/uploadProfileImage.ts:96 | the stored URL is the public URL, then `?t=`, then a non-empty run of decimal digits |
| AvatarUpload.AvatarKeyInjective | beta/src/lib/uploadProfileImage.ts:65 | two profiles share the avatar key `<id>/avatar.webp` only when they are the same profile |
| AvatarUpload.ReportedProgress | beta/src/lib/uploadProfileImage.ts:21-25 | a value is reported exactly for a length-computable event, and it is the exact quotient 100·loaded/total rounded half up, which the double computation can miss by one at a half-integer (see Left out) |
| AvatarUpload.ReportedProgressBounds | beta/src/lib/uploadProfileImage.ts:23 | the reported value lies in 0..100, and it is 100 once everything is loaded |
| AvatarUpload.ReportedProgressMonotone | beta/src/lib/uploadProfileImage.ts:23 | more bytes loaded never reports less |
| AvatarUpload.ReportedTraceProgresses | beta/src/lib/uploadProfileImage.ts:21-25 | over one upload the callback values stay in 0..100 and never fall, and a final complete event reports 100 |
| AvatarUpload.Upload | beta/src/lib/uploadProfileImage.ts:50-108 | the pipeline as written, including the pre-delete: it succeeds exactly when compression, token, upload and database write all succeed. On success one object holds the new bytes and the row holds the cache-busted URL. A failed write leaves the rows untouched and removes the object unless the rollback fails. No other key is touched |
| AvatarUpload.UploadSuccessConsistent | beta/src/lib/uploadProfileImage.ts:94-107 | after a successful upload the row's image is the returned URL, and row and object agree |
| AvatarUpload.UploadTwiceOneObject | beta/src/lib/uploadProfileImage.ts:82-91 | two uploads leave one object at the key, holding the second upload's bytes (upsert, not accumulation) |
| AvatarUpload.PreClearThenRejectedUploadDangles | beta/src/lib/uploadProfileImage.ts:76-91 | as written, a rejected upload after a successful pre-delete leaves the row pointing at a deleted object |
| AvatarUpload.PreClearDanglingExample | beta/src/lib/uploadProfileImage.ts:76-91 | a concrete profile whose avatar is lost by a network error during re-upload |
| AvatarUpload.UploadNoPreclear | beta/src/lib/uploadProfileImage.ts:82-107 | corrected pipeline: a rejected upload changes nothing, and every success equals the original's |
| AvatarUpload.NoPreclearKeepsAvatarConsistent | beta/src/lib/uploadProfileImage.ts:82-107 | without the pre-delete, every run whose database write succeeds keeps row and storage consistent |
| AvatarUpload.DbFailureConsistency | beta/src/lib/uploadProfileImage.ts:99-105 | after a failed database write, in both pipelines, row and storage agree exactly when the row had no image and the rollback removed the object, or the row had an image and the rollback failed |
| AvatarUpload.DeleteImage | beta/src/lib/uploadProfileImage.ts:110-124 | a storage error changes nothing. Otherwise the object goes, and the row's image is nulled unless the database write fails, which is reported |
| AvatarUpload.DeleteDbFailureConsistency | beta/src/lib/uploadProfileImage.ts:116-123 | when the object is removed but nulling the row fails, row and storage agree exactly when the row had no image |
| AvatarUpload.DeleteSuccessClears | beta/src/lib/uploadProfileImage.ts:116-123 | after a full delete there is no object, the image is null, and the two agree |
| AvatarUpload.UploadProfileImage | beta/src/lib/uploadProfileImage.ts:50-108 | the step-by-step pipeline on the backend computes the corrected `UploadNoPreclear` and leaves the follows table alone |
| AvatarUpload.DeleteProfileImage | beta/src/lib/uploadProfileImage.ts:110-124 | the step-by-step delete computes `DeleteImage` |
| ImageUploadWidget.IsImageType | beta/src/components/ProfileImageUpload.tsx:40 | a file is accepted exactly when its type starts with `image/` |
| ImageUploadWidget.CompressBand | beta/src/components/ProfileImageUpload.tsx:58 | compression progress maps into 0..50, halving with rounding half up |
| ImageUploadWidget.UploadBand | beta/src/components/ProfileImageUpload.tsx:64 | upload progress maps into 50..100, exactly for the reported value it is given |
| ImageUploadWidget.BarTrace | beta/src/components/ProfileImageUpload.tsx:56-67 | the bar shows the compression band for each compression value, then the upload band for each upload value |
| ImageUploadWidget.BarTraceProgresses | beta/src/components/ProfileImageUpload.tsx:56-67 | the bar never moves back. Compression fills the first half and the upload the second, and a complete upload shows 100 |
| ImageUploadWidget.ProfileImageUpload.constructor | beta/src/components/ProfileImageUpload.tsx:24-26 | the sheet starts idle at 0 % showing the current image |
| ImageUploadWidget.ProfileImageUpload.SyncCurrentImage | beta/src/components/ProfileImageUpload.tsx:31-33 | a new current-image prop replaces the shown image |
| ImageUploadWidget.ProfileImageUpload.HandleFileChange | beta/src/components/ProfileImageUpload.tsx:35-53 | an upload starts exactly for a chosen image file, showing its preview at 0 %. Anything else changes nothing |
| ImageUploadWidget.ProfileImageUpload.OnCompressProgress | beta/src/components/ProfileImageUpload.tsx:56-61 | the status becomes compressing and the bar the compression band |
| ImageUploadWidget.ProfileImageUpload.OnUploadProgress | beta/src/components/ProfileImageUpload.tsx:62-67 | the status becomes uploading and the bar the upload band |
| ImageUploadWidget.ProfileImageUpload.FinishUpload | beta/src/components/ProfileImageUpload.tsx:70-81 | idle at 0 %, showing the new URL on success and, on failure, the image URL the handler captured when it was created |
| ImageUploadWidget.ProfileImageUpload.HandleDelete | beta/src/components/ProfileImageUpload.tsx:84-89 | the status becomes deleting, so the buttons are disabled |
| ImageUploadWidget.ProfileImageUpload.FinishDelete | beta/src/components/ProfileImageUpload.tsx:89-98 | idle, and the image is cleared only on success |
| ProfileStore.NewRow | beta/src/stores/profileStore.ts:61-81 | the inserted row carries the given ids, username and display name, the bio or `""` when none is given, no image, public, both timestamps now |
| ProfileStore.EarliestOfUser | beta/src/stores/profileStore.ts:34-40 | the fetched row belongs to the user and is the earliest created, and there is none exactly when the user has no row |
| ProfileStore.Named | beta/src/stores/profileStore.ts:110-114 | the lookup returns exactly the rows with the name |
| ProfileStore.ApplyUpdate | beta/src/stores/profileStore.ts:86-94 | the update writes exactly the given columns and keeps every other field |
| ProfileStore.UpdateRows | beta/src/stores/profileStore.ts:91-94 | only rows with the id are updated |
| ProfileStore.UsernameAvailable | beta/src/stores/profileStore.ts:108-129 | available implies the lookup worked and the name is free or the asker's own. Two or more rows with the name make it unavailable. A free name, or the asker's own single row, is available, so the result is determined in every case |
| ProfileStore.FetchAfterCreate | beta/src/stores/profileStore.ts:31-81 | after creating the first profile of a user, a fetch finds that profile |
| ProfileStore.UpdateData | beta/src/stores/profileStore.ts:86-89 | the update data holds exactly the fields given, with their values |
| ProfileStore.BuildUpdateData | beta/src/stores/profileStore.ts:86-89 | the field-by-field construction yields `UpdateData` |
| ProfileStore.ProfileStore.constructor | beta/src/stores/profileStore.ts:24-25 | no profile, loading |
| ProfileStore.ProfileStore.SetProfile | beta/src/stores/profileStore.ts:27 | sets the profile only |
| ProfileStore.ProfileStore.SetIsLoading | beta/src/stores/profileStore.ts:28 | sets loading only |
| ProfileStore.ProfileStore.FetchProfile | beta/src/stores/profileStore.ts:31-58 | loading ends, and the profile is the earliest row of the user, or none on any error |
| ProfileStore.ProfileStore.CreateProfile | beta/src/stores/profileStore.ts:61-81 | the insert succeeds exactly when the backend accepts a fresh id. It appends the row, with an empty bio when none is given, and stores it. A failure changes nothing |
| ProfileStore.ProfileStore.UpdateProfile | beta/src/stores/profileStore.ts:84-105 | succeeds exactly when the row exists, updates it with the given fields and stores it. A failure changes nothing |
| ProfileStore.ProfileStore.RefreshProfile | beta/src/stores/profileStore.ts:132-146 | replaces the profile with the earliest row, and any error keeps it; loading is untouched |
| Onboarding.ValidUsername | beta/src/app/auth/onboarding/page.tsx:40 | the `[a-zA-Z0-9_]{3,20}` rule: a name that passes is all ASCII and 3 to 20 UTF-16 code units long |
| Onboarding.KelvinSignUsername | beta/src/app/auth/onboarding/page.tsx:190 | typing "\u212Aab" stores "kab" and starts a lookup for it |
| Onboarding.ValidateForm | beta/src/app/auth/onboarding/page.tsx:55-81 | the form passes exactly for a non-blank display name of at most 30 code units, a well-formed name not known taken, and a bio of at most 150 code units |
| Onboarding.SubmitDisabled | beta/src/app/auth/onboarding/page.tsx:245-255 | a running submit always disables the button, and so does a pending or taken name at every step but the display-name step |
| Onboarding.LeavesForMap | beta/src/app/auth/onboarding/page.tsx:27 | the page leaves for the map only when neither auth nor the profile is loading and a profile exists |
| Onboarding.ValidUsernameNotBlank | beta/src/app/auth/onboarding/page.tsx:64-71 | a well-formed username is never blank |
| Onboarding.LowerKeepsUsername | beta/src/app/auth/onboarding/page.tsx:190 | lower-casing keeps a username well-formed and is idempotent |
| Onboarding.StatusOnInput | beta/src/app/auth/onboarding/page.tsx:33-46 | a new name sets checking exactly when it matches `[a-zA-Z0-9_]{3,20}`, idle otherwise |
| Onboarding.StepZeroCheck | beta/src/app/auth/onboarding/page.tsx:86-98 | step 0 passes exactly for a well-formed name not known taken, and blank is reported first |
| Onboarding.StepOneCheck | beta/src/app/auth/onboarding/page.tsx:102-110 | step 1 passes exactly for a non-blank name of at most 30 UTF-16 code units |
| Onboarding.ValidateFormIsStepChecks | beta/src/app/auth/onboarding/page.tsx:55-81 | `validateForm` is the step-1 check, then the step-0 check, then the bio limit of 150 UTF-16 code units |
| Onboarding.FinalStepValidation | beta/src/app/auth/onboarding/page.tsx:114-117 | once both steps passed, the final check fails only on a taken name or a long bio |
| Onboarding.SubmitEnabledAdvances | beta/src/app/auth/onboarding/page.tsx:245-255 | an enabled button at steps 0 and 1 is exactly the step check passing with no lookup pending and no submit running |
| Onboarding.OnboardingPage.constructor | beta/src/app/auth/onboarding/page.tsx:17-23 | empty fields, idle, step 0 |
| Onboarding.OnboardingPage.OnUsernameInput | beta/src/app/auth/onboarding/page.tsx:190 | the name is stored lower-cased as `toLowerCase` does for ASCII letters and the Kelvin sign. A changed name replaces the pending lookup with one for the new name exactly when it is well-formed |
| Onboarding.OnboardingPage.OnLookupResolved | beta/src/app/auth/onboarding/page.tsx:47-50 | the lookup ends with available or taken, as the availability check answers |
| Onboarding.OnboardingPage.OnDisplayNameInput | beta/src/app/auth/onboarding/page.tsx:213 | sets the name only |
| Onboarding.OnboardingPage.OnBioInput | beta/src/app/auth/onboarding/page.tsx:229 | sets the bio only |
| Onboarding.OnboardingPage.HandleSubmit | beta/src/app/auth/onboarding/page.tsx:83-142 | steps 0 and 1 advance exactly when their checks pass. Step 2 needs a user and a valid form, then inserts the lower-cased name with the trimmed name and bio and goes to the map; a failed insert re-enables the form |
| Onboarding.OnboardingPage.OnProfileState | beta/src/app/auth/onboarding/page.tsx:25-30 | once neither auth nor profile is loading and a profile exists the page goes to the map; otherwise nothing changes, and no form field changes either way |
| Onboarding.OnboardingPage.CreateAndLeave | beta/src/app/auth/onboarding/page.tsx:119-136 | the insert succeeds exactly when the backend accepts it. The new row is stored and the page goes to the map; otherwise submitting ends |
| UseFollow.StatusLookup | beta/src/hooks/useFollow.ts:20-25 | a status is returned only from a row of the pair, and none unless exactly one row matches |
| UseFollow.FollowsIffAcceptedRow | beta/src/hooks/useFollow.ts:27 | under the key, "following" holds exactly when the accepted row of the pair exists |
| UseFollow.UnfollowClears | beta/src/hooks/useFollow.ts:48-52 | after the delete the lookup finds nothing |
| UseFollow.FollowSets | beta/src/hooks/useFollow.ts:62-66 | after inserting an absent pair the key holds and the lookup finds it accepted |
| UseFollow.DeleteKeepsOtherPairs | beta/src/hooks/useFollow.ts:48-52 | the delete leaves every other pair's rows and status unchanged |
| UseFollow.AppendKeepsOtherPairs | beta/src/hooks/useFollow.ts:62-66 | the insert leaves every other pair's rows and status unchanged |
| UseFollow.FollowButton.constructor | beta/src/hooks/useFollow.ts:12-13 | not following, loading |
| UseFollow.FollowButton.LoadStatus | beta/src/hooks/useFollow.ts:16-32 | skipped without an own id or a target. Otherwise following is whether the lookup saw an accepted row, and loading ends |
| UseFollow.FollowButton.ToggleFollow | beta/src/hooks/useFollow.ts:34-77 | refuses without an own id or on one's own profile. Otherwise it deletes or inserts the pair, flips the flag only on success (an existing pair fails with "23505") and ends loading. It keeps the key, keeps the button in sync with the table and leaves other pairs alone |
| UseFollowCount.AcceptedCount | beta/src/hooks/useFollowCount.ts:20-30 | the count is at most the table size, and zero exactly when no accepted row has the profile in the filter column |
| UseFollowCount.CountAfterAppend | beta/src/hooks/useFollow.ts:62-66 | a new accepted row adds one to exactly the counts it matches |
| UseFollowCount.CountAfterDelete | beta/src/hooks/useFollow.ts:48-52 | an unfollow removes one from exactly the two counts of the pair when its accepted row was present |
| UseFollowCount.DeleteAbsentIsIdentity | beta/src/hooks/useFollow.ts:48-52 | deleting an absent pair changes nothing |
| UseFollowCount.FollowCounts.constructor | beta/src/hooks/useFollowCount.ts:11-12 | both counts 0, loading |
| UseFollowCount.FollowCounts.FetchCounts | beta/src/hooks/useFollowCount.ts:14-41 | skipped for an empty id. Otherwise each count is the accepted-row count, 0 when its query fails, and loading ends |
| UseFollowList.Parse | beta/src/hooks/useFollowList.ts:27-30 | no data gives an empty list; without arrays the list holds exactly the profiles of the records, and is no longer than the data |
| UseFollowList.FollowList | beta/src/hooks/useFollowList.ts:18-30 | the list holds only existing profiles and is no longer than the matching count |
| UseFollowList.Flat | beta/src/hooks/useFollowList.ts:29 | without arrays, flattening is the identity |
| UseFollowList.Records | beta/src/hooks/useFollowList.ts:30 | the filter keeps exactly the single records, and all of them when there is nothing else |
| UseFollowList.FlatMembers | beta/src/hooks/useFollowList.ts:29 | an entry is in the flattened list exactly when it is a top-level non-array or an element of a top-level array |
| UseFollowList.ParseMembers | beta/src/hooks/useFollowList.ts:27-30 | a profile is parsed exactly when some entry carries its record directly or in an array |
| UseFollowList.Selected | beta/src/hooks/useFollowList.ts:24-25 | the query selects exactly the accepted rows with the profile in the filter column, as many as the count |
| UseFollowList.Embed | beta/src/hooks/useFollowList.ts:23 | the join embeds the listed profile's row, or null when there is none, never an array |
| UseFollowList.Response | beta/src/hooks/useFollowList.ts:21-25 | one embedded value per selected row, in order |
| UseFollowList.FollowListMembers | beta/src/hooks/useFollowList.ts:18-30 | the followers list holds exactly the profiles of accepted followers, and the following list exactly the accepted followed profiles |
| UseFollowList.ListLengthMatchesCount | beta/src/hooks/useFollowList.ts:18-30 | when every listed profile exists, the list is as long as the matching count |
| UseFollowList.FollowListState.constructor | beta/src/hooks/useFollowList.ts:9-10 | empty list, loading |
| UseFollowList.FollowListState.FetchList | beta/src/hooks/useFollowList.ts:12-37 | skipped for an empty id. Otherwise the list is the parsed response, empty on failure, and loading ends |
| VerifyEmail.ResendAllowed | beta/src/app/auth/verify/page.tsx:79 | a resend is allowed exactly when there is an address and the countdown is 0 |
| VerifyEmail.DisplayEmail | beta/src/app/auth/verify/page.tsx:24 | the user's e-mail when present, else the query's, else empty |
| VerifyEmail.CountdownAfter | beta/src/app/auth/verify/page.tsx:71-76 | each tick lowers the countdown by one down to 0 |
| VerifyEmail.CooldownLastsSixtyTicks | beta/src/app/auth/verify/page.tsx:79-91 | after a resend the next is allowed exactly after sixty ticks, given an address |
| VerifyEmail.CountdownCompose | beta/src/app/auth/verify/page.tsx:71-76 | ticks compose |
| VerifyEmail.VerifyPage.constructor | beta/src/app/auth/verify/page.tsx:17-20 | not resending, countdown 0, not verified, no interval |
| VerifyEmail.VerifyPage.Cleanup | beta/src/app/auth/verify/page.tsx:61-66 | the held interval is cleared and the ref nulled |
| VerifyEmail.VerifyPage.RunPollEffect | beta/src/app/auth/verify/page.tsx:49-68 | after the old cleanup: nothing while loading; a confirmed user goes to onboarding; otherwise exactly one new interval is live and held |
| VerifyEmail.VerifyPage.Unmount | beta/src/app/auth/verify/page.tsx:61-66 | no interval survives |
| VerifyEmail.VerifyPage.CheckVerificationStatus | beta/src/app/auth/verify/page.tsx:27-45 | a confirmed session sets verified, clears the interval and goes to onboarding. Anything else, failures included, changes nothing |
| VerifyEmail.VerifyPage.HandleManualCheck | beta/src/app/auth/verify/page.tsx:99-111 | runs the check, then warns exactly when the rendered `isVerified` was false and the session is unconfirmed |
| VerifyEmail.VerifyPage.HandleResend | beta/src/app/auth/verify/page.tsx:78-97 | refused without an address or during the cooldown. Otherwise it resends, starts the 60-second cooldown only on success, and always ends not resending |
| VerifyEmail.VerifyPage.Tick | beta/src/app/auth/verify/page.tsx:71-76 | one second of the countdown |
| AuthRedirect.ShowsLoading | beta/src/app/page.tsx:25 | the spinner shows exactly while auth is loading or a redirect is under way |
| AuthRedirect.RedirectTarget | beta/src/app/page.tsx:17-21 | an unconfirmed user goes to the verification page, a confirmed one to the map |
| AuthRedirect.RedirectDecision | beta/src/app/page.tsx:15-21 | the effect redirects exactly when not loading, signed in and not already redirecting |
| AuthRedirect.RedirectsAtMostOnce | beta/src/app/page.tsx:14-23 | over any run of effect executions a page redirects at most once, and never after the flag is set |
| Landing.LandingPage.constructor | beta/src/app/page.tsx:11 | not redirecting, no redirect |
| Landing.LandingPage.RunRedirectEffect | beta/src/app/page.tsx:14-23 | the effect sets the flag and replaces the route exactly as the shared redirect rule decides |
| UriComponent.Decode | beta/src/app/auth/verify/page.tsx:23 | text with nothing escaped decodes to itself |
| UriComponent.QueryGet | beta/src/app/auth/verify/page.tsx:23 | `get` answers null exactly when no `&`-separated piece carries the name; otherwise it answers the decoded value of the first piece that does |
| UriComponent.Utf8 | beta/src/app/auth/signup/page.tsx:60 | a character encodes to 1..4 UTF-8 bytes, one byte exactly for ASCII |
| UriComponent.Encode | beta/src/app/auth/signup/page.tsx:60 | `encodeURIComponent` emits only unreserved characters and `%` |
| UriComponent.EncodeUnreserved | beta/src/app/auth/signup/page.tsx:60 | unreserved text is left unchanged |
| UriComponent.Utf8RoundTrip | beta/src/app/auth/verify/page.tsx:23 | UTF-8 decoding inverts UTF-8 encoding on every string |
| UriComponent.PercentDecodeEncode | beta/src/app/auth/verify/page.tsx:23 | percent decoding of the encoding yields the UTF-8 bytes of the text |
| UriComponent.DecodeEncode | beta/src/app/auth/verify/page.tsx:23 | decoding the encoding gives back the original text |
| UriComponent.SinglePairRoundTrip | beta/src/app/auth/verify/page.tsx:23 | reading a parameter from `name=<encoded value>` gives back the value |
| Signup.SignUpCheck | beta/src/app/auth/signup/page.tsx:34-47 | each refusal holds exactly under its condition, in order (missing field, mismatch, shorter than 6 UTF-16 code units), and the form passes exactly when all hold |
| Signup.AstralPasswordLength | beta/src/app/auth/signup/page.tsx:44 | a password of three characters outside the Basic Multilingual Plane is six code units and passes the length check, while three ASCII characters are refused |
| Signup.VerifyLink | beta/src/app/auth/signup/page.tsx:60 | the link is `/auth/verify?email=` followed by text holding no `&` or `#`, so the address stays one parameter |
| Signup.VerifyLinkCarriesEmail | beta/src/app/auth/signup/page.tsx:60 | the verification page reads back exactly the address the sign-up link carries, and shows it while no user is loaded |
| Signup.SignupPage.constructor | beta/src/app/auth/signup/page.tsx:13-17 | empty fields, not submitting, not redirecting |
| Signup.SignupPage.SetFields | beta/src/app/auth/signup/page.tsx:115-150 | typing sets the fields while the form is enabled |
| Signup.SignupPage.RunRedirectEffect | beta/src/app/auth/signup/page.tsx:20-29 | the shared redirect rule |
| Signup.SignupPage.HandleSignUp | beta/src/app/auth/signup/page.tsx:31-61 | an invalid form is refused with its reason and no call. Otherwise there is exactly one sign-up call; failure re-enables the form and success goes to the verification link |
| Login.MissingCredentials | beta/src/app/auth/login/page.tsx:33 | the form is refused exactly when the e-mail or the password is empty |
| Login.LoginPage.constructor | beta/src/app/auth/login/page.tsx:13-16 | empty fields, not submitting, not redirecting |
| Login.LoginPage.SetFields | beta/src/app/auth/login/page.tsx:104-120 | typing sets the fields while the form is enabled |
| Login.LoginPage.RunRedirectEffect | beta/src/app/auth/login/page.tsx:19-28 | the shared redirect rule |
| Login.LoginPage.HandleLogin | beta/src/app/auth/login/page.tsx:30-50 | an empty field is refused with no call. Otherwise there is exactly one sign-in call; failure re-enables the form and success does not navigate |
| Callback.HandleCallback | beta/src/app/auth/callback/route.ts:6-22 | exchanges exactly a non-empty code, goes to onboarding exactly on a successful exchange and to sign-up otherwise, always on the request's origin |
| AuthProvider.LoadsProfile | beta/src/app/providers/AuthProvider.tsx:23 | the profile is loaded exactly for a session whose user has confirmed the e-mail |
| AuthProvider.ProfileAfterSession | beta/src/app/providers/AuthProvider.tsx:23-29 | a profile is held only for a confirmed user and is that user's row, none exactly when the user is unconfirmed, the lookup fails or no row exists |
| AuthProvider.AuthProvider.constructor | beta/src/app/providers/AuthProvider.tsx:9 | no user, auth loading, not subscribed |
| AuthProvider.AuthProvider.HandleSession | beta/src/app/providers/AuthProvider.tsx:38-49 | sets the user and ends auth loading. The profile store ends up not loading and holds `ProfileAfterSession`, never a profile of another user |
| AuthProvider.AuthProvider.Mount | beta/src/app/providers/AuthProvider.tsx:12-50 | handles the current session and subscribes |
| AuthProvider.AuthProvider.OnAuthStateChange | beta/src/app/providers/AuthProvider.tsx:37-50 | each later session is handled the same way |
| AuthProvider.AuthProvider.Unmount | beta/src/app/providers/AuthProvider.tsx:52-54 | unsubscribes and keeps the auth state |
| Geolocation.QueriedPermission | beta/src/hooks/useGeolocation.ts:28-37 | the query's state, unknown when it fails or is unsupported |
| Geolocation.ErrorMessage | beta/src/hooks/useGeolocation.ts:58 | the shown message is never empty: the error's own, or the default |
| Geolocation.PermissionAfterError | beta/src/hooks/useGeolocation.ts:57 | only a refusal sets denied |
| Geolocation.GeolocationHook.constructor | beta/src/hooks/useGeolocation.ts:22-25 | unknown permission, no position, no error, no watch |
| Geolocation.GeolocationHook.OnPermissionQuery | beta/src/hooks/useGeolocation.ts:28-37 | the answer sets the permission while mounted, and is ignored afterwards |
| Geolocation.GeolocationHook.UnmountQuery | beta/src/hooks/useGeolocation.ts:38-40 | the effect's cleanup |
| Geolocation.GeolocationHook.HandlePosition | beta/src/hooks/useGeolocation.ts:43-54 | stores the position and grants the permission |
| Geolocation.GeolocationHook.HandleError | beta/src/hooks/useGeolocation.ts:56-59 | denied only on a refusal, and the message is always set |
| Geolocation.GeolocationHook.RequestPermission | beta/src/hooks/useGeolocation.ts:63-70 | unsupported gives an error and no request. Otherwise the error is cleared and exactly one request is issued |
| Geolocation.GeolocationHook.StartWatch | beta/src/hooks/useGeolocation.ts:73-91 | the old watch is cleared first, and exactly the new watch is live |
| Geolocation.GeolocationHook.StopWatch | beta/src/hooks/useGeolocation.ts:93-98 | no watch is live afterwards, and without one nothing happens |
| LiveLocationLayer.AccuracyRadius | beta/src/components/Map/LiveLocationLayer.tsx:100-104 | a circle is drawn exactly for a positive accuracy, with radius max(5, accuracy) |
| LiveLocationLayer.ShowsBanner | beta/src/components/Map/LiveLocationLayer.tsx:74 | a refusal always shows the banner, so does a missing position without a grant, and a position with a grant and no error hides it |
| LiveLocationLayer.BannerAfterPosition | beta/src/components/Map/LiveLocationLayer.tsx:74 | with a position and no error, the banner shows exactly when permission is denied |
| LiveLocationLayer.DeniedShowsBanner | beta/src/components/Map/LiveLocationLayer.tsx:74 | a refusal always shows the banner |
| LiveLocationLayer.Fire | beta/src/components/Map/LiveLocationLayer.tsx:51-53 | the pending release timer frees the lock |
| LiveLocationLayer.EffectAsWritten | beta/src/components/Map/LiveLocationLayer.tsx:46-55 | as written: the cleanup cancels the release timer. A run pans exactly when ready with the lock clear; every other run keeps the lock and loses the timer |
| LiveLocationLayer.StuckNeverPans | beta/src/components/Map/LiveLocationLayer.tsx:46-55 | as written, a lock whose timer was cancelled stays locked and never pans again |
| LiveLocationLayer.QuickRerunSticks | beta/src/components/Map/LiveLocationLayer.tsx:46-55 | as written, two ready runs within 300 ms pan once, then never again |
| LiveLocationLayer.Effect | beta/src/components/Map/LiveLocationLayer.tsx:46-55 | corrected: a run pans exactly when ready with the lock clear, and leaves the release timer running |
| LiveLocationLayer.StepKeepsInv | beta/src/components/Map/LiveLocationLayer.tsx:46-55 | the lock is held exactly while its release is pending, and no run pans while it is held |
| LiveLocationLayer.NeverSticks | beta/src/components/Map/LiveLocationLayer.tsx:46-55 | corrected: after any events, the next release lets a ready run pan |
| LiveLocationLayer.PansAreSeparatedByRelease | beta/src/components/Map/LiveLocationLayer.tsx:46-55 | the throttle: no two pans without a release between them |
| LiveLocationLayer.LiveLocationLayer.constructor | beta/src/components/Map/LiveLocationLayer.tsx:14-15 | follow mode, lock clear |
| LiveLocationLayer.LiveLocationLayer.OnDragStart | beta/src/components/Map/LiveLocationLayer.tsx:18-23 | a drag sets observe |
| LiveLocationLayer.LiveLocationLayer.ToggleTracking | beta/src/components/Map/LiveLocationLayer.tsx:135 | flips follow and observe |
| LiveLocationLayer.LiveLocationLayer.Recenter | beta/src/components/Map/LiveLocationLayer.tsx:125-129 | nothing without a position or a map. Otherwise it sets follow and pans to the position |
| LiveLocationLayer.LiveLocationLayer.RunPanEffect | beta/src/components/Map/LiveLocationLayer.tsx:46-55 | the corrected throttle step, with a pan to the position when it fires |
| LiveLocationLayer.LiveLocationLayer.OnReleaseTimer | beta/src/components/Map/LiveLocationLayer.tsx:51-53 | the release frees the lock |
| LiveLocationLayer.LiveLocationLayer.RunWatchEffect | beta/src/components/Map/LiveLocationLayer.tsx:28-33 | after the old cleanup, exactly one watch is live when permission is granted and geolocation is supported, none otherwise |
| LiveLocationLayer.LiveLocationLayer.Unmount | beta/src/components/Map/LiveLocationLayer.tsx:35-38 | no watch survives |
| UseProfiles.ILike | beta/src/hooks/useProfiles.ts:26 | the empty pattern matches every column, and a match is never longer than the column |
| UseProfiles.Matches | beta/src/hooks/useProfiles.ts:25-27 | the empty term matches every row, and a matching term fits in the username or the display name |
| UseProfiles.Search | beta/src/hooks/useProfiles.ts:18-30 | the search returns as many rows as there are candidates, capped at 50 |
| UseProfiles.MatchesIffOccurs | beta/src/hooks/useProfiles.ts:24-28 | a row matches exactly when the lower-cased term occurs in its lower-cased username or display name |
| UseProfiles.Filter | beta/src/hooks/useProfiles.ts:24-28 | keeps exactly the matching rows |
| UseProfiles.Candidates | beta/src/hooks/useProfiles.ts:24-28 | a blank query keeps every row, and otherwise exactly the rows matching the trimmed query |
| UseProfiles.Insert | beta/src/hooks/useProfiles.ts:21 | inserting a row into a newest-first list keeps it newest first and adds exactly that row |
| UseProfiles.SortNewestFirst | beta/src/hooks/useProfiles.ts:21 | the order is newest first and a permutation of the rows |
| UseProfiles.SearchShape | beta/src/hooks/useProfiles.ts:18-28 | at most 50 rows, newest first, each a selected table row |
| UseProfiles.SearchKeepsNewest | beta/src/hooks/useProfiles.ts:21-22 | a selected row left out is no newer than any returned, and none is left out when at most 50 are selected |
| UseProfiles.BlankQueryNoFilter | beta/src/hooks/useProfiles.ts:24 | a query that trims to nothing lists the same as no query |
| UseProfiles.DebounceDelay | beta/src/hooks/useProfiles.ts:36 | 300 ms exactly for a non-blank query, 0 ms otherwise |
| UseProfiles.ProfilesHook.constructor | beta/src/hooks/useProfiles.ts:11-12 | empty list, loading, a fetch pending for the initial query |
| UseProfiles.ProfilesHook.SetQuery | beta/src/hooks/useProfiles.ts:36-39 | an unchanged query leaves the pending fetch alone, since the effect depends on the query only; a new query replaces it with one for that query and its delay |
| UseProfiles.ProfilesHook.OnTimer | beta/src/hooks/useProfiles.ts:15-33 | the fetch stores the search result for the current query, empty on failure, and loading ends |
| UseProfiles.ProfilesHook.Unmount | beta/src/hooks/useProfiles.ts:38 | the pending fetch is cancelled |

## Left out

- Network, auth service and database internals. Each call completes at once with a
  caller-chosen outcome. Row-level security, PostgREST error codes other than the ones the
  code tests, and the transport are not modelled.
- Concurrency. Every asynchronous handler runs to completion before the next event. This
  excludes:
  - a username lookup that resolves after a newer input;
  - a profile fetch that resolves after the query changed;
  - racing uploads;
  - the two count queries running in parallel.
- Wall-clock time. Debounces, the 3-second poll, the 1-second countdown, the 300 ms pan lock
  and the 60-second cooldown are explicit tick and fire events. The 1-second fallback
  navigation after onboarding (beta/src/app/auth/onboarding/page.tsx:139-141) is not
  modelled; the model records the `replace('/map')` navigation only.
- Toasts, JSX, styling and animation. Error outcomes are returned values instead.
- Image compression. The library's output is an opaque blob chosen by the caller, and its
  progress callback is a trace of values in 0..100. The 1 MB, 512 px and WebP settings are
  not modelled.
- `URL.createObjectURL` previews are caller-chosen strings. `localStorage` and
  `sessionStorage` clearing on the landing page is not modelled.
- ImageUploadWidget.ProfileImageUpload.FinishUpload: the `refreshProfile` call after a
  successful upload or delete is not linked here. It is modelled on its own as
  `ProfileStore.ProfileStore.RefreshProfile`.
- Geolocation coordinates, heading and speed are left out; a position carries only its
  accuracy and timestamp. The accuracy radius uses real numbers without floating-point
  rounding.
- Geolocation.GeolocationHook.OnPermissionQuery: the permission state is taken as one of the
  four values the hook declares. A browser value outside them is not modelled.
- LiveLocationLayer: the `false` member of the tracking type is never assigned by the code
  and is not modelled. The layer's drag listener registration and removal are reduced to
  `hasMap`.
- Common.Lower, Onboarding.OnboardingPage.OnUsernameInput: lower-casing folds the ASCII
  letters and the Kelvin sign U+212A (to `k`), and leaves every other character alone.
  `toLowerCase` also folds the other non-ASCII upper-case letters, sometimes changing the
  length (U+0130 becomes two characters). No other character folds into ASCII, so every
  name the format check accepts is stored and looked up as the code does; a name it rejects
  may be stored in a different case.
- UseProfiles.Search: the search term is put into the `or(...)` filter unescaped, and the
  model treats it as a plain case-insensitive substring. Not modelled:
  - the `ilike` wildcards `%` and `_`, and `*`, which the backend reads as `%` (so "a*b"
    matches "axxb" there but not in the model);
  - commas, parentheses and `.`-prefixed operator fragments, which change or break the
    filter. A malformed filter makes the query fail, so the hook takes its error branch and
    shows an empty list where the model returns the matches;
  - the backend's order among rows of equal age. The model returns them in the order of a
    stable insertion, which the backend does not promise.
- ProfileStore.EarliestOfUser: among rows of equal `created_at` it picks the first in table
  order; `.order('created_at').limit(1)` does not promise which one the backend returns.
- UseFollow.FollowButton: the own id `me` is fixed for the button's lifetime. The effect's
  re-run when the signed-in profile changes, and the stale following flag shown until it
  completes, are not modelled.
- UseProfiles.ILike, UseProfiles.Matches: case folding is ASCII only, here on free text.
  Display names and the search term may hold non-ASCII letters, which the backend's
  `ilike` may fold under the database's locale while the model compares them exactly, so the model can miss rows the backend
  returns.
- AvatarUpload.NoPreclearKeepsAvatarConsistent: holds only when the database write
  succeeds. When it fails, the rollback removes the key the upsert has just overwritten, so
  a profile that had an avatar is left pointing at a removed object unless the rollback
  fails too; `AvatarUpload.DbFailureConsistency` states exactly when the state stays
  consistent. Restoring the previous object would need a copy the code never keeps.
- AvatarUpload.ReportedProgress: the model rounds the exact quotient 100·loaded/total half
  up. The source computes `(loaded / total) * 100` in doubles before `Math.round`, and that
  product can fall just below a half-integer, so it rounds down where the model rounds up:
  loaded 29 of 200 reports 14 there and 15 here, and 23 of 40 reports 57 there and 58 here.
  The same value then feeds `ImageUploadWidget.UploadBand`. The bounds 0..100, the
  monotonicity and the 100 on completion hold for the double computation too.
- AvatarUpload.DeleteImage: removing the object before nulling the row leaves a dangling
  image URL when the database write then fails; `AvatarUpload.DeleteDbFailureConsistency`
  states when.
- UseFollowList: embedded profile records carry every profile field, although the query
  selects seven columns.
- UriComponent.Decode: a malformed UTF-8 sequence decodes to one U+FFFD per byte, a
  simplification of the standard's maximal-subpart rule. Lone UTF-16 surrogates, for which
  `encodeURIComponent` throws, cannot occur in the model's strings.
- The auth store itself is not part of this model. Its fields appear in
  `AuthProvider.AuthProvider` and as parameters of the pages.

## Findings

| source | as written | input that shows it | evidently intended | confidence | as-written member | corrected member |
|---|---|---|---|---|---|---|
| beta/src/lib/uploadProfileImage.ts:76-91 | the existing avatar is removed before the new upload, and a failed upload does not restore it | a profile with a stored avatar re-uploads and the upload ends in a network error: the row still holds the old URL but the object is gone | the upload already sends `x-upsert: true`, so no remove is needed; a failed upload should leave the old avatar in place | medium, not executed | AvatarUpload.PreClearThenRejectedUploadDangles, AvatarUpload.PreClearDanglingExample (on AvatarUpload.Upload) | AvatarUpload.UploadNoPreclear, AvatarUpload.NoPreclearKeepsAvatarConsistent |
| beta/src/components/Map/LiveLocationLayer.tsx:46-55 | the auto-pan effect's cleanup cancels the 300 ms timer that releases `panLock` | a pan, then a new position (or a follow-mode change) within 300 ms: the re-run's cleanup cancels the release, the lock stays set, and the map never follows the user again | the lock should always be released 300 ms after a pan, throttling pans without stopping them | high, not executed | LiveLocationLayer.QuickRerunSticks, LiveLocationLayer.StuckNeverPans (on LiveLocationLayer.EffectAsWritten) | LiveLocationLayer.Effect, LiveLocationLayer.NeverSticks, LiveLocationLayer.PansAreSeparatedByRelease |
