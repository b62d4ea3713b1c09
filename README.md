# FacilityGuard core, modelled in Dafny

FacilityGuard is a multi-tenant web application. Organizations register
facilities and collect feedback surveys through printed QR-code signs. This
project models the parts of it that decide something:

- **Tenant rules** (`Tenant`, from `src/lib/tenant.ts`):
  - organization slugs: the normalisation chain, the unique-slug search over taken slugs, and the slug validator;
  - the role/action permission table;
  - the plan-limit gates for new facilities and new surveys.
- **Plan table** (`Plans`, from `src/lib/stripe.ts`): the three subscription tiers and their limits. A limit of -1 means unlimited.
- **Authentication callbacks** (`Auth`, from `src/lib/auth.ts`):
  - where `redirect` sends a sign-in;
  - the onboarding link an unknown email gets;
  - what `signIn` writes back for a known user;
  - how `jwt` and `session` pick up the stored role and organization.
- **QR sign designer** (`QRCodeDesigner`, from `src/components/QRCodeDesigner.tsx`):
  - `adjustBrightness` on `#rrggbb` colours;
  - greedy `wrapText`;
  - the aligned-text x-coordinate;
  - the download file name;
  - the option record with its icon upload and its reset. The component state is a class.
- **Onboarding page** (`Onboarding`, from `src/app/onboarding/page.tsx`):
  - the form state and its change handlers;
  - the slug derived from the typed name;
  - the two buttons' disabled rules;
  - the two submit handlers. The page state is a class, and each handler is split at its `await`.

Two support modules model the JavaScript built-ins these files rely on:

- `JsString`: `toLowerCase` on ASCII, regex `replace` with a one-character class, `trim`, `split` and `join`, `substr`, and a template-literal number.
- `JsNumber`: `parseInt(s, 16)`, `Math.min`/`Math.max`, `toString(16)` and `padStart`.

`Wrappers.Option` stands for JavaScript's `null`/`undefined`.

All database lookups are parameters:

- the organization found;
- the role of the user found;
- the set of slugs already taken;
- the survey count for the month;
- the user row for an email.

`encodeURIComponent` and the canvas `measureText` are abstract function parameters.

## Model

| member | source | states |
|---|---|---|
| Tenant.BaseSlugShape | src/lib/tenant.ts:138-143 | The chain (lower-case, drop characters outside `[a-z0-9\s-]`, whitespace runs to `-`, hyphen runs to `-`, trim) yields only `[a-z0-9-]`, no whitespace and never `--`. The final `trim` is a no-op. |
| Tenant.BaseSlug | src/lib/tenant.ts:138-143 | Defines the normalisation chain step by step. Its properties are the `BaseSlug…` lemmas. |
| Tenant.CollapsedSlug | src/lib/tenant.ts:138-142 | Defines the chain up to and without the final `trim`. `CollapsedSlugShape` gives its meaning. |
| Tenant.CollapsedSlugShape | src/lib/tenant.ts:138-142 | The chain before `trim` already yields only `[a-z0-9-]` and never `--`. |
| Tenant.NormalSlugFixed | src/lib/tenant.ts:138-143 | A string over `[a-z0-9-]` with no `--` comes through the chain unchanged. |
| Tenant.BaseSlugIdempotent | src/lib/tenant.ts:138-143 | Normalising twice is normalising once. |
| Tenant.BaseSlugFixedIff | src/lib/tenant.ts:138-143 | The chain's fixed points are exactly the strings over `[a-z0-9-]` without `--`, in both directions. |
| Tenant.BaseSlugKeepsAlnum | src/lib/tenant.ts:138-143 | Every ASCII letter and digit of the lower-cased name survives, in order. Only hyphens and dropped characters differ. |
| Tenant.BaseSlugEmptyIff | src/lib/tenant.ts:138-143 | The base slug is empty exactly when no lower-cased character of the name is a letter, digit, whitespace or hyphen. |
| Tenant.NormalSlugLowered | src/lib/tenant.ts:139-140 | Lower-casing and filtering leave a normal slug as it is. |
| Tenant.NormalSlugCollapsed | src/lib/tenant.ts:141-142 | Both run replacements leave a normal slug as it is. |
| Tenant.SlugCharsNotWhite | src/lib/tenant.ts:140-143 | A string over `[a-z0-9-]` holds no whitespace, so `trim` cannot touch it. |
| Tenant.AcmeBaseSlug | src/lib/tenant.ts:138-143 | The name `"Acme "` normalises to `"acme-"`: the trailing space becomes a hyphen before `trim` runs. |
| Tenant.AcmeLowered | src/lib/tenant.ts:139-140 | `"Acme "` lower-cased and filtered is `"acme "`. |
| Tenant.AcmeWhitespace | src/lib/tenant.ts:141 | The whitespace replacement turns `"acme "` into `"acme-"`. |
| Tenant.WhitespaceTail | src/lib/tenant.ts:141 | One trailing space after a whitespace-free word becomes a single `-`. |
| Tenant.AcmeHyphens | src/lib/tenant.ts:142 | The hyphen-run replacement leaves `"acme-"` unchanged. |
| Tenant.AcmeCollapsed | src/lib/tenant.ts:141-142 | Both replacements together take `"acme "` to `"acme-"`. |
| Tenant.GenerateSlug | src/lib/tenant.ts:137-158 | `generateSlug` over the set of taken slugs: the result is never a taken slug. The search terminates because each taken candidate shrinks the untried part of the set. |
| Tenant.GenerateSlugSearch | src/lib/tenant.ts:145-157 | From any attempt, the result is the candidate of the first free attempt at or after it. Every attempt in between is taken, and at most as many attempts are made as there are untried taken slugs. |
| Tenant.GenerateSlugLeastFree | src/lib/tenant.ts:137-158 | From attempt 0, the result is `base` or `base-k` for the least free `k`, with `k` at most the number of taken slugs. |
| Tenant.GenerateSlugLeastFreeOf | src/lib/tenant.ts:137-158 | The same statement, with the base slug passed in. |
| Tenant.GenerateSlugTaken | src/lib/tenant.ts:153-155 | A taken candidate moves the search to the next attempt. |
| Tenant.GenerateSlugFree | src/lib/tenant.ts:145-157 | A free candidate is returned. |
| Tenant.GenerateSlugSecond | src/lib/tenant.ts:145-157 | When the base slug is taken and `base-1` is free, the result is `base-1`. |
| Tenant.GeneratedSlugMayBeInvalid | src/lib/tenant.ts:137-158 | When the base slug ends in `-` (for example the name `"Acme "`), neither it nor `base-1` passes `isValidSlug`. `generateSlug`'s results are not always valid slugs. |
| Tenant.CandidateOne | src/lib/tenant.ts:145-147 | Attempt 1 appends `-1`. |
| Tenant.CandidateInjective | src/lib/tenant.ts:145-147 | Different attempts give different candidates, so no candidate is tried twice. |
| Tenant.Candidate | src/lib/tenant.ts:145-147 | Defines attempt 0 as the base slug and attempt `k` as `base-k`. |
| Tenant.TriedShrinks | src/lib/tenant.ts:153-155 | Trying a taken candidate removes one slug from the taken-but-untried set. |
| Tenant.HyphenEndInvalid | src/lib/tenant.ts:131-134 | A slug ending in `-` fails the validator, and so does that slug with `-1` appended. |
| Tenant.SlugPatternIsRuns | src/lib/tenant.ts:132 | `^[a-z0-9]+(?:-[a-z0-9]+)*$` matches exactly the strings that `split('-')` cuts into non-empty runs of `[a-z0-9]`. |
| Tenant.MatchesSlugPattern | src/lib/tenant.ts:132 | Defines `^[a-z0-9]+(?:-[a-z0-9]+)*$` as a two-state automaton. `PatternByChars` and `SlugPatternIsRuns` give its meaning. |
| Tenant.PatternByRuns | src/lib/tenant.ts:132 | The same equivalence for the pattern's automaton from either state. |
| Tenant.PatternByChars | src/lib/tenant.ts:132 | From its start state, the pattern's automaton accepts exactly non-empty strings over `[a-z0-9-]` that neither start nor end with `-` and contain no `--`. |
| Tenant.AllAlnumRunsForall | src/lib/tenant.ts:132 | The recursive "every part is an alphanumeric run" agrees with its quantified form. |
| Tenant.ValidSlugIff | src/lib/tenant.ts:131-134 | `isValidSlug` holds exactly for 3 to 50 characters over `[a-z0-9-]` that neither start nor end with `-` and contain no `--`. |
| Tenant.IsValidSlug | src/lib/tenant.ts:131-134 | Defines the validator as the pattern's automaton plus the length bounds 3..50. `ValidSlugIff` gives its meaning. |
| Tenant.ValidSlugIsNormal | src/lib/tenant.ts:131-143 | A valid slug passes through the normalisation chain unchanged. |
| Tenant.PermissionByRank | src/lib/tenant.ts:104-128 | The permission table agrees with a ranking: VIEWER < MEMBER < ADMIN = OWNER against read < write < admin. A missing user, an unknown role and an unknown action get nothing. |
| Tenant.PermissionHierarchy | src/lib/tenant.ts:116-127 | Admin implies write, and write implies read. A missing user or an unknown action is refused. |
| Tenant.PermissionsPerRole | src/lib/tenant.ts:118-127 | Per role: VIEWER may only read, MEMBER may read and write, OWNER and ADMIN may do all three, and any other role may do nothing. |
| Tenant.HasPermission | src/lib/tenant.ts:104-128 | Defines the role/action table. `PermissionByRank` and `PermissionsPerRole` give its meaning. |
| Tenant.ActiveFacilities | src/lib/tenant.ts:8-12 | A facility is counted exactly when it is in the list and active. Every counted facility is active, and there are no more of them than facilities. |
| Tenant.ActiveFacilitiesAppend | src/lib/tenant.ts:8-12 | Counting active facilities distributes over concatenation. |
| Tenant.ActiveFacilitiesSnoc | src/lib/tenant.ts:8-12 | One more facility raises the count by one when it is active, and leaves it unchanged when it is not. |
| Tenant.AllActiveCounted | src/lib/tenant.ts:8-12 | When every facility is active, all of them are counted, in order. |
| Tenant.CanCreateFacilityGate | src/lib/tenant.ts:5-24 | A missing organization is refused and an unlimited plan (Enterprise) is always allowed. Otherwise the answer is "active facilities < limit", in both directions. |
| Tenant.CanCreateFacility | src/lib/tenant.ts:5-24 | Defines the facility gate. `CanCreateFacilityGate` gives its meaning. |
| Tenant.InactiveFacilitiesDoNotCount | src/lib/tenant.ts:8-23 | Inserting an inactive facility anywhere does not change the answer. |
| Tenant.CanRecordSurveyGate | src/lib/tenant.ts:27-54 | A missing organization is refused and an unlimited plan is always allowed. Otherwise the answer is "surveys this month < limit", in both directions. |
| Tenant.CanRecordSurvey | src/lib/tenant.ts:27-54 | Defines the survey gate. `CanRecordSurveyGate` gives its meaning. |
| Tenant.CanRecordSurveyMonotone | src/lib/tenant.ts:27-54 | Allowed at some monthly count implies allowed at every smaller count. |
| Tenant.StarterSurveyLimit | src/lib/tenant.ts:53 | At a Starter organization survey 1000 is allowed after 999 and refused after 1000. |
| Plans.PlanTypeKeys | src/lib/stripe.ts:9-65 | `PlanType` is exactly STARTER, PROFESSIONAL and ENTERPRISE. |
| Plans.StarterTier | src/lib/stripe.ts:10-25 | Starter: 5 facilities, 1000 surveys, price 29. |
| Plans.ProfessionalTier | src/lib/stripe.ts:26-43 | Professional: 25 facilities, 10000 surveys, price 99. |
| Plans.EnterpriseTier | src/lib/stripe.ts:44-62 | Enterprise: both limits are the unlimited sentinel -1, price 299. |
| Plans.TiersOrdered | src/lib/stripe.ts:9-63 | Every finite limit is positive. Starter is below Professional in both limits, and the prices strictly increase. |
| Auth.RedirectCases | src/lib/auth.ts:89-101 | The four exits of `redirect`, in order: an onboarding path passes unchanged, the base URL goes to `/dashboard`, an on-site URL passes, and anything else goes to the base URL. |
| Auth.Redirect | src/lib/auth.ts:89-101 | Defines the callback's three tests in source order. |
| Auth.RedirectStaysOnSite | src/lib/auth.ts:89-101 | Except for onboarding paths, the result starts with the base URL as text. This is a string-prefix test, not a test of the origin. |
| Auth.RedirectPrefixBypass | src/lib/auth.ts:96-100 | Any URL that is the base URL followed by more text is passed through unchanged, whatever the extra text is. Only the base URL itself goes to `/dashboard`. |
| Auth.RedirectToLookalikeHost | src/lib/auth.ts:89-101 | With base URL `https://a.com`, both `https://a.com.evil.org/` and `https://a.com@evil.org/` pass through unchanged, although each names the host `evil.org`. |
| Auth.MergedNameRule | src/lib/auth.ts:43 | `user.name \|\| existingUser.name`: the provider name wins unless it is missing or empty. |
| Auth.MergedName | src/lib/auth.ts:43 | Defines JavaScript's `\|\|` on the two optional names. |
| Auth.OnboardingUrl | src/lib/auth.ts:33 | Defines the onboarding link built from the encoded email and name. |
| Auth.SignIn | src/lib/auth.ts:24-48 | Defines the callback's two outcomes: the onboarding link for an unknown email, or entry with an update record. |
| Auth.NewUserReachesOnboarding | src/lib/auth.ts:24-34 | An unknown email is sent to `/onboarding?email=…&name=…`, and `redirect` lets that link through whatever the base URL. |
| Auth.KnownUserUpdate | src/lib/auth.ts:36-47 | A known user is let in. Their row is updated with the provider image and the merged name. |
| Auth.Jwt | src/lib/auth.ts:50-75 | The callback never touches the claims NextAuth manages. |
| Auth.JwtMerge | src/lib/auth.ts:50-75 | The token changes only on a sign-in whose email has a stored user. It then takes that user's role, organization id and organization. |
| Auth.JwtIdempotent | src/lib/auth.ts:50-75 | Running the callback again on its own output changes nothing. |
| Auth.SessionOf | src/lib/auth.ts:77-87 | The session user's role, organization id and organization are copied from the token. The session keeps its expiry and its user's name, email and image. |
| Auth.SessionAfterSignIn | src/lib/auth.ts:50-87 | After a sign-in with a stored user, the session user carries that user's role and organization. |
| QRCodeDesigner.AdjustBrightnessChannels | src/components/QRCodeDesigner.tsx:157-163 | For a `#rrggbb` colour the result is a lower-case `#rrggbb` colour, and each channel is the input channel plus `amount`, clamped to 0..255. |
| QRCodeDesigner.AdjustBrightness | src/components/QRCodeDesigner.tsx:157-163 | Defines the helper as written, including what it does with malformed colours made of characters inside the Basic Multilingual Plane. |
| QRCodeDesigner.AdjustChannel | src/components/QRCodeDesigner.tsx:159-162 | Defines one channel: `parseInt`, the shift, the clamp, then `toString(16).padStart(2,'0')`. |
| QRCodeDesigner.AdjustDigits | src/components/QRCodeDesigner.tsx:157-163 | The result is the encoding of the three clamped, shifted digit pairs. |
| QRCodeDesigner.ColorPairs | src/components/QRCodeDesigner.tsx:158-162 | Removing `#` and taking `substr(0,2)`, `substr(2,2)` and `substr(4,2)` splits the colour into its three digit pairs. |
| QRCodeDesigner.AdjustedPairsAreRgb | src/components/QRCodeDesigner.tsx:159-162 | Each adjusted pair is the two hex digits of its clamped value. |
| QRCodeDesigner.AdjustChannelDigits | src/components/QRCodeDesigner.tsx:159-162 | One channel: parse, shift, clamp and `toString(16).padStart(2,'0')` give the two digits of the clamped value. |
| QRCodeDesigner.Clamp | src/components/QRCodeDesigner.tsx:159-161 | `Math.max(0, Math.min(255, v))` lies in 0..255 and is `v` when `v` already does. Its saturation at both ends is `ClampSaturates`. |
| QRCodeDesigner.ClampByte | src/components/QRCodeDesigner.tsx:159-161 | Defines `Math.max(0, Math.min(255, x))` on a number that may be NaN. It is what `AdjustChannel` computes; `ClampByteFinite` shows it is `Clamp` on a finite number and keeps NaN. |
| QRCodeDesigner.ClampByteFinite | src/components/QRCodeDesigner.tsx:159-161 | On a finite number the NaN-aware clamp equals the integer clamp, and NaN stays NaN. |
| QRCodeDesigner.ChannelText | src/components/QRCodeDesigner.tsx:162 | Defines `toString(16).padStart(2, '0')` for one channel. `HexByte` gives its value on a byte. |
| QRCodeDesigner.ClampSaturates | src/components/QRCodeDesigner.tsx:159-161 | The clamp saturates: a value below 0 gives 0 and a value above 255 gives 255. |
| QRCodeDesigner.RgbChannels | src/components/QRCodeDesigner.tsx:162 | The colour written for three bytes is a lower-case `#rrggbb` colour whose channels are those bytes. |
| QRCodeDesigner.DarkeningNeverBrightens | src/components/QRCodeDesigner.tsx:252 | With a non-positive amount (the header gradient uses -40), no channel increases. |
| QRCodeDesigner.AdjustByZero | src/components/QRCodeDesigner.tsx:157-163 | A lower-case colour adjusted by 0 comes back unchanged. |
| QRCodeDesigner.LowerColorIsRgb | src/components/QRCodeDesigner.tsx:162 | A lower-case colour is the encoding of its own channels. |
| QRCodeDesigner.HexColorOfDigits | src/components/QRCodeDesigner.tsx:157-163 | Every `#rrggbb` colour is `#` followed by its six digits, so the digit-level lemmas cover every valid colour. |
| QRCodeDesigner.EmptyColorIsNaN | src/components/QRCodeDesigner.tsx:157-163 | Invalid input is not rejected: an empty colour, or `#` alone, gives `"#NaNNaNNaN"`. |
| QRCodeDesigner.WrapText | src/components/QRCodeDesigner.tsx:166-183 | The loop returns between one line and one per word. Joining the lines with spaces gives the text back, and splitting them gives the original words. Every prefix of two or more words of every line measured below `maxWidth`, so each line is exactly what the greedy loop built. Every line break was forced, because the next word would not fit. |
| QRCodeDesigner.WrapStart | src/components/QRCodeDesigner.tsx:167-169 | Before the loop, the first word is the current line and there are no finished lines. |
| QRCodeDesigner.WrapExtend | src/components/QRCodeDesigner.tsx:174-175 | A word that fits joins the current line, and the invariant holds. |
| QRCodeDesigner.WrapBreak | src/components/QRCodeDesigner.tsx:176-178 | A word that does not fit finishes the line and starts the next one, and the invariant holds. |
| QRCodeDesigner.WrapDone | src/components/QRCodeDesigner.tsx:181-182 | After the last word the lines plus the current line satisfy the result contract. |
| QRCodeDesigner.PrefixesFitExtend | src/components/QRCodeDesigner.tsx:173-175 | A word appended after a fitting width test keeps every multi-word prefix of the line below `maxWidth`. |
| QRCodeDesigner.PrefixesFitWhole | src/components/QRCodeDesigner.tsx:173-175 | A line built this way and holding a space measures below `maxWidth` as a whole. |
| QRCodeDesigner.PrefixesFitWord | src/components/QRCodeDesigner.tsx:169 | A single word starts a line with no prefix to test. |
| QRCodeDesigner.MultiWordLinesFit | src/components/QRCodeDesigner.tsx:171-182 | Defines the fit property of the result: every line, and every prefix of it of two or more words, measures below `maxWidth`. |
| QRCodeDesigner.BreaksAreForced | src/components/QRCodeDesigner.tsx:176-178 | Defines the break property of the result: appending the next line's first word to a line reaches `maxWidth`. |
| QRCodeDesigner.OverlongWordStandsAlone | src/components/QRCodeDesigner.tsx:166-183 | If the measure grows with added words, a word at least `maxWidth` wide occupies a line of its own. |
| QRCodeDesigner.PartsMeasureBound | src/components/QRCodeDesigner.tsx:173 | Under such a measure, no word is wider than any join containing it. |
| QRCodeDesigner.TextX | src/components/QRCodeDesigner.tsx:280-281 | The x-coordinate of aligned text stays within the 60-pixel margins of the 850-pixel canvas. |
| QRCodeDesigner.TextXValues | src/components/QRCodeDesigner.tsx:193-203 | Centre is 425, right is 790 and left is 60, for title, subtitle and description alike (lines 280-281, 313-314 and 372-373). |
| QRCodeDesigner.DownloadName | src/components/QRCodeDesigner.tsx:426 | The `download` file name holds no whitespace. |
| QRCodeDesigner.DownloadStem | src/components/QRCodeDesigner.tsx:426 | Defines `name.replace(/\s+/g, '_')` as a run replacement. |
| QRCodeDesigner.DownloadStemShape | src/components/QRCodeDesigner.tsx:426 | `name.replace(/\s+/g, '_')` has no whitespace and is no longer than the name. It keeps every character that is neither whitespace nor `_`, in order, and leaves a whitespace-free name unchanged. |
| QRCodeDesigner.DownloadStemRun | src/components/QRCodeDesigner.tsx:426 | A maximal run of whitespace after a whitespace-free prefix becomes exactly one `_`, and the prefix is kept as it is. |
| QRCodeDesigner.SliderRanges | src/components/QRCodeDesigner.tsx:88-136 | The reset puts every slider value inside its slider's range. The initial title, subtitle and description sizes exceed their sliders' maxima of 72, 48 and 32 (lines 685-686, 750-751 and 815-816). |
| QRCodeDesigner.InSliderRanges | src/components/QRCodeDesigner.tsx:550-551 | Defines the seven slider ranges: QR size 150..350 here, and the title, subtitle, description, border, corner and icon sliders at lines 685-686, 750-751, 815-816, 955-956, 979-980 and 1069-1070. |
| QRCodeDesigner.ResetChangesOnlySizes | src/components/QRCodeDesigner.tsx:438-478 | Apart from four sizes, the reset record equals the initial one: QR size 240, title size 52, subtitle size 32 and description size 24. |
| QRCodeDesigner.WithUploadedIcon | src/components/QRCodeDesigner.tsx:412-417 | The upload changes at most the custom icon, and sets it only to an image file. |
| QRCodeDesigner.UploadIconCases | src/components/QRCodeDesigner.tsx:412-417 | A file whose type starts with `image/` becomes the icon. No file, or any other type, leaves the options as they were. |
| QRCodeDesigner.InitialOptions | src/components/QRCodeDesigner.tsx:88-136 | Defines the option record the component starts with. |
| QRCodeDesigner.DefaultOptions | src/components/QRCodeDesigner.tsx:438-479 | Defines the option record the reset writes. |
| QRCodeDesigner.DownloadDisabled | src/components/QRCodeDesigner.tsx:1082 | Defines the download button's `disabled={isGenerating \|\| !previewUrl}`. |
| QRCodeDesigner.Designer.DownloadButtonDisabled | src/components/QRCodeDesigner.tsx:1082 | The download button's disabled rule, read from the designer's state. |
| QRCodeDesigner.Designer.constructor | src/components/QRCodeDesigner.tsx:88-139 | The designer opens with the initial options, no preview, and generation off, so the download button starts disabled. |
| QRCodeDesigner.Designer.HandleIconUpload | src/components/QRCodeDesigner.tsx:412-417 | The options become the upload update of the old options. Nothing else changes. |
| QRCodeDesigner.Designer.ResetToDefaults | src/components/QRCodeDesigner.tsx:438-479 | The options become the default record, and every slider is then in range. Preview and generation flag are unchanged. |
| QRCodeDesigner.Designer.DownloadSign | src/components/QRCodeDesigner.tsx:419-436 | Without a preview nothing happens. Otherwise the link is named after the facility and the generation flag ends false. A link is made exactly when a preview exists, which includes every time the button was enabled. The handler does not test the generation flag, so it also downloads while the button is disabled for a running generation. After a download the button is enabled. |
| JsString.ReplaceRunsNoAdjacent | src/lib/tenant.ts:141-142 | A run replacement whose replacement character is in the class leaves no two class characters adjacent. |
| JsString.ReplaceRunsIdentity | src/lib/tenant.ts:141-142 | A run replacement leaves a string whose class characters are all the replacement and never adjacent unchanged. |
| JsString.ReplaceRunsFilter | src/lib/tenant.ts:141-142 | A run replacement keeps every character outside the class, in order. |
| JsString.ReplaceRuns | src/lib/tenant.ts:141-142 | `s.replace(/[c]+/g, rep)`: no longer than the input, and every character is `rep` or outside the class. |
| JsString.ToLowerCase | src/lib/tenant.ts:139 | `toLowerCase` keeps the length, and lower-cases each character on its own; the same call is at src/app/onboarding/page.tsx:87. |
| JsString.Filter | src/lib/tenant.ts:140 | `replace(/[^a-z0-9\s-]/g, '')` as a filter: no longer than the input, and every kept character passes the class test. |
| JsString.ReplaceRunsRun | src/lib/tenant.ts:141-142 | A maximal run of class characters after a prefix with none becomes exactly one `rep`, and the prefix is kept. |
| JsString.Trim | src/lib/tenant.ts:143 | Defines `trim` as dropping whitespace at both ends. `TrimNoWhite` gives its meaning on the strings the chain produces. |
| JsString.TrimNoWhite | src/lib/tenant.ts:143 | `trim` leaves a string without whitespace unchanged. |
| JsString.SplitOn | src/components/QRCodeDesigner.tsx:167 | `split(' ')` gives at least one part, and no part holds the separator. |
| JsString.StartsWith | src/lib/auth.ts:91-100 | Defines `startsWith` as a text-prefix test; the same call is at src/components/QRCodeDesigner.tsx:414. |
| JsString.Substr | src/components/QRCodeDesigner.tsx:159-161 | `substr(start, length)` with non-negative arguments: at most `length` characters. |
| JsString.RemoveFirst | src/components/QRCodeDesigner.tsx:158 | `replace('#', '')` with a string pattern: one character shorter when `#` occurs, since only the first occurrence goes, and unchanged otherwise. |
| JsString.Decimal | src/lib/tenant.ts:146 | `${attempt}`: a non-empty string of decimal digits. `DecimalRoundTrip` gives its value. |
| JsString.FilterFilter | src/lib/tenant.ts:140 | Two character filters compose to the stronger one. |
| JsString.JoinSplit | src/components/QRCodeDesigner.tsx:167 | `text.split(' ').join(' ')` is `text`. |
| JsString.SplitJoin | src/components/QRCodeDesigner.tsx:167-181 | Splitting joined lines gives the words of each line, concatenated. |
| JsString.DecimalRoundTrip | src/lib/tenant.ts:146 | The decimal digits `${attempt}` writes read back as `attempt`. |
| JsString.DecimalInjective | src/lib/tenant.ts:146 | Different attempts give different decimal suffixes. |
| JsNumber.ByteRoundTrip | src/components/QRCodeDesigner.tsx:159-162 | A byte written with `toString(16).padStart(2,'0')` parses back to itself with `parseInt(…, 16)`. |
| JsNumber.HexPairRoundTrip | src/components/QRCodeDesigner.tsx:159-162 | Two lower-case hex digits, parsed and written back, are the same two digits. |
| JsNumber.HexByte | src/components/QRCodeDesigner.tsx:162 | A byte written in hex and padded to two is its high digit followed by its low digit. |
| JsNumber.ParseTwoHexDigits | src/components/QRCodeDesigner.tsx:159-161 | `parseInt` of two hex digits, in either case, is their value. |
| JsNumber.ParseIntHex | src/components/QRCodeDesigner.tsx:159-161 | Defines `parseInt(s, 16)`: skip leading whitespace, read an optional sign and an optional `0x`, then take the value of the longest run of hex digits, or `NaN` when there is none. |
| JsNumber.ToHexString | src/components/QRCodeDesigner.tsx:162 | Defines `toString(16)` on a whole number: lower-case digits, a `-` for a negative number, and `NaN` for NaN. |
| JsNumber.Add | src/components/QRCodeDesigner.tsx:159-161 | Defines `+ amount` on a number that may be NaN; NaN stays NaN. |
| JsNumber.Min | src/components/QRCodeDesigner.tsx:159-161 | Defines `Math.min(bound, x)`; NaN stays NaN. |
| JsNumber.Max | src/components/QRCodeDesigner.tsx:159-161 | Defines `Math.max(bound, x)`; NaN stays NaN. |
| JsNumber.PadStart | src/components/QRCodeDesigner.tsx:162 | `padStart(len, fill)`: the result has length `max(len, \|s\|)` and ends with `s`, and every character before `s` is `fill`. |
| Onboarding.ParamOrEmpty | src/app/onboarding/page.tsx:28-29 | `searchParams.x \|\| ''` is the parameter when present, and is empty exactly when the parameter is missing or empty. |
| Onboarding.InitialFormData | src/app/onboarding/page.tsx:24-30 | The form starts with empty name, slug and invite code, and with the email and name taken from the query. |
| Onboarding.WithGeneratedSlug | src/app/onboarding/page.tsx:85-94 | `generateSlug` replaces only the slug, with the tenant base slug of the name. |
| Onboarding.AfterNameEdit | src/app/onboarding/page.tsx:137-141 | Typing a name stores it and the slug derived from it. Nothing else changes. |
| Onboarding.GeneratedSlugShape | src/app/onboarding/page.tsx:85-94 | The derived slug is over `[a-z0-9-]`, has no whitespace and no `--`. |
| Onboarding.AfterSlugEdit | src/app/onboarding/page.tsx:156 | Typing a slug stores it raw. Nothing else changes. |
| Onboarding.AfterInviteEdit | src/app/onboarding/page.tsx:177 | Typing an invite code stores it. Nothing else changes. |
| Onboarding.ButtonsEnabledIff | src/app/onboarding/page.tsx:163-183 | "Create" is enabled exactly when name and slug are non-empty and no request is running. "Join" is enabled exactly when the invite code is non-empty and no request is running. |
| Onboarding.CreateDisabled | src/app/onboarding/page.tsx:163 | Defines `disabled={!formData.organizationName \|\| !formData.slug \|\| loading}`. |
| Onboarding.JoinDisabled | src/app/onboarding/page.tsx:183 | Defines `disabled={!formData.inviteCode \|\| loading}`. |
| Onboarding.OnboardingPage.CreateButtonDisabled | src/app/onboarding/page.tsx:163 | The "Create" button's disabled rule, read from the page state. |
| Onboarding.OnboardingPage.JoinButtonDisabled | src/app/onboarding/page.tsx:183 | The "Join" button's disabled rule, read from the page state. |
| Onboarding.CreateDisabledAfterNameEdit | src/app/onboarding/page.tsx:137-163 | After typing a name, "Create" is disabled exactly when loading, or when no lower-cased character of the name survives into the slug. |
| Onboarding.NameWithAlnumEnablesCreate | src/app/onboarding/page.tsx:137-163 | A name holding a letter or digit always enables "Create" while idle. |
| Onboarding.NameEditOverridesSlug | src/app/onboarding/page.tsx:137-156 | Editing the name again discards a hand-typed slug. |
| Onboarding.ManualSlugUnchecked | src/app/onboarding/page.tsx:156 | A hand-typed slug such as `"Acme Corp"` is stored as typed, even though it breaks the slug rules. |
| Onboarding.GeneratedSlugStable | src/app/onboarding/page.tsx:85-94 | Deriving the slug twice from the same name, or from the derived slug itself, changes nothing. |
| Onboarding.DerivedSlugMatchesServer | src/app/onboarding/page.tsx:85-94 | When the derived slug is free, the server's `generateSlug` returns the same slug. |
| Onboarding.Endpoint | src/app/onboarding/page.tsx:35-62 | Both requests go under `/api/organizations`. Only a create request goes to that exact path; a join goes to `/join`. |
| Onboarding.CreateRequest | src/app/onboarding/page.tsx:38-43 | The create body carries the form's name, slug, email and user name. |
| Onboarding.JoinRequest | src/app/onboarding/page.tsx:65-69 | The join body carries the form's invite code, email and user name. |
| Onboarding.CreateAfterNameEdit | src/app/onboarding/page.tsx:24-43 | A create sent right after typing a name carries that name, its derived slug and the query's email and name. |
| Onboarding.NextRoute | src/app/onboarding/page.tsx:46-56 | Only an ok response navigates to `/dashboard`. A failed response or a thrown error leaves the route unchanged. |
| Onboarding.OnboardingPage.constructor | src/app/onboarding/page.tsx:20-30 | The page opens on the organization step, not loading, with the initial form and no navigation. |
| Onboarding.OnboardingPage.SelectStep | src/app/onboarding/page.tsx:111-119 | The step buttons change only the step. |
| Onboarding.OnboardingPage.GenerateSlug | src/app/onboarding/page.tsx:85-94 | The form becomes the slug update of the old form. Nothing else changes. |
| Onboarding.OnboardingPage.OnOrganizationNameChange | src/app/onboarding/page.tsx:137-141 | The form becomes the name update of the old form. Nothing else changes. |
| Onboarding.OnboardingPage.OnSlugChange | src/app/onboarding/page.tsx:156 | The form becomes the raw slug update of the old form. Nothing else changes. |
| Onboarding.OnboardingPage.OnInviteCodeChange | src/app/onboarding/page.tsx:177 | The form becomes the invite-code update of the old form. Nothing else changes. |
| Onboarding.OnboardingPage.BeginRequest | src/app/onboarding/page.tsx:32-44 | Before the `await`, the request built from the current form is chosen and `loading` is set. Both buttons are then disabled. |
| Onboarding.OnboardingPage.FinishRequest | src/app/onboarding/page.tsx:46-56 | After the `await`, the page navigates per the outcome, and `loading` is cleared in every case. |
| Onboarding.OnboardingPage.HandleCreateOrganization | src/app/onboarding/page.tsx:32-57 | The create body is posted to `/api/organizations`. The page navigates per the outcome, ends not loading, and keeps its form. |
| Onboarding.OnboardingPage.HandleJoinOrganization | src/app/onboarding/page.tsx:59-83 | The join body is posted to `/api/organizations/join`. The page navigates per the outcome, ends not loading, and keeps its form. |

## Left out

- The Prisma queries: the organization, user, survey and slug lookups are parameters. The month start `startOfMonth` is folded into the survey count passed in.
- `getUsageStats` (src/lib/tenant.ts:57-101): it only reports, and its percentages are floating point.
- `Tenant.CanCreateFacilityGate`, `Tenant.CanRecordSurveyGate`: they require the organization's plan to be a key of the plan table. With an unknown plan the source reads `.limits` of `undefined` and throws; the model does not represent that throw.
- The Stripe SDK calls in src/lib/stripe.ts, and the price ids that come from the environment.
- The NextAuth configuration: providers, adapter, pages and event logging. The database write in `signIn` is modelled as the update record it would send, not as a write.
- `encodeURIComponent` is an abstract function. The model does not say which characters it escapes.
- `toLowerCase` folds ASCII letters only. Unicode case mapping is not modelled.
- Strings are sequences of Unicode scalar values, while JavaScript strings are sequences of UTF-16 code units. For characters outside the Basic Multilingual Plane, `substr` offsets and `length` therefore differ from the source: for `s` made of U+1F600 followed by `12345`, `s.substr(2, 2)` is `"12"` in JavaScript and `"23"` here. The `type="color"` input that sets the colours (src/components/QRCodeDesigner.tsx:1021-1024) yields only `#rrggbb` text, and the slug chain keeps only ASCII letters and digits.
- The canvas: drawing, fonts, scaling and the layout arithmetic in floating point. `measureText(…).width` is a deterministic `string -> int` parameter of `QRCodeDesigner.WrapText`: the same text always measures the same, and floating-point widths are modelled as integers.
- generatePreview, the effect that regenerates the preview, and the QR code library.
- The slider and text-field change handlers of the designer: each one only sets one field. The model captures their ranges through `QRCodeDesigner.SliderRanges`.
- `QRCodeDesigner.AdjustBrightnessChannels`, `QRCodeDesigner.DarkeningNeverBrightens`, `QRCodeDesigner.AdjustByZero`: stated for a colour written as `#` plus six digits. `QRCodeDesigner.HexColorOfDigits` shows that every `#rrggbb` colour has this form. Colours of other shapes are covered only by `QRCodeDesigner.EmptyColorIsNaN`.
- `QRCodeDesigner.Designer.DownloadSign`: the DOM link, the click and the `try`/`catch` around them. No exception is modelled, so `finally` always clears the flag.
- The onboarding page's own slug chain (src/app/onboarding/page.tsx:86-91) is textually the tenant chain, so it is modelled once, as `Tenant.BaseSlug`.
- The onboarding `fetch` is split at its `await`, into `BeginRequest` and `FinishRequest`. Interleavings with other events are not modelled. The error text logged on a failed response is left out.
- The Google and Microsoft sign-in buttons on the onboarding page. Rendering and every other UI file.
- `null` and `undefined` are both `None`.
- `Auth.SignIn`, `Auth.Jwt`: the provider user's email is a required string. The source's `user.email!` when the provider gives no email (src/lib/auth.ts:27, 33 and 54), where the Prisma lookup with `undefined` rejects, is not modelled.
- The `amplify/` backend definition, src/lib/api.ts and src/lib/auth-context.tsx: they are the client-side data and session layer, not part of this model.
