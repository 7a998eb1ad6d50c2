# Ichan Kala guide: a verified model of its decision rules

The Ichan Kala guide is a tourist application for the walled inner town of
Khiva. It has a Next.js front end and a FastAPI back end. This project models
the parts of it that decide something, in Dafny, and proves what they promise:

- the admin **Location Mapper**: recording a boundary walk, the save rule
  (update by case-insensitive name or create at the first point), the roster
  filters, the name-sync effect and roster click that fill the form, delete,
  and the 100 by 100 SVG preview;
- the **translation context**: dotted-key lookup `t` with a whole-key English
  fallback, the start-up locale choice, and `setLocale`;
- the **admin tables**: top-level listing with skip/limit, creation with schema
  defaults, partial update, one-level cascading delete, and the config upsert;
- the **public place queries**: nearest active place within 300 m, one place by
  id, the narration text, and the list of active top-level places;
- **start-up seeding**: the admin account, and the monuments of the CSV file;
- the deterministic parts of the **AI service**: the voice table, the chat and
  welcome fallbacks, the welcome cleanup, the plan generator, the translation
  fallback and the two demo recognisers;
- four small **UI state machines**: the onboarding tutorial, the trip planner,
  the recommended-first restaurant list, and the live translator.

## Layout

| file | module | models |
|---|---|---|
| wrappers.dfy | Wrappers | `Option` |
| text.dfy | Text | ASCII lower-casing, `trim`/`strip`, `split`, `replace(p, "")`, integer rendering |
| projection.dfy | Projection | the Location Mapper's preview path (`getSvgPath`) |
| mapper.dfy | Mapper | the Location Mapper page, as class `MapperPage` with pure helpers |
| i18n.dfy | I18n | `LanguageContext.tsx`, as class `LanguageProvider` |
| db.dfy | Db | a SQLAlchemy table as class `Table` of rows addressed by column name |
| admin.dfy | Admin | the admin endpoints over `Db.Table` |
| public_api.dfy | PublicApi | the public place endpoints |
| seed.dfy | Seed | `init_db.py` |
| ai_service.dfy | AiService | `ai_service.py` |
| onboarding.dfy | Onboarding | the tutorial, as class `Tutorial` |
| plan.dfy | Plan | the planner, as class `PlanPage` with the pure `toggleInterest` |
| restaurants.dfy | Restaurants | the in-place recommended-first sort and class `RestaurantsPage` |
| translate.dfy | Translate | the translator, as class `TranslatePage` |

Network calls, the browser's geolocation and speech recognition, the remote
models, `float()`, `os.path.exists` and the great-circle distance are parameters.
Each is either an outcome value, such as `Mapper.Response` or `AiService.Reply`,
or a function argument. The React handlers the model covers are method calls
on the page's class; the ones it does not cover are listed under "Left out".

## Model

| member | source | states |
|---|---|---|
| Projection.MinOf | frontend/app/admin/mapper/page.tsx:261 | `Math.min(...)` of a non-empty list is one of its elements and below every element |
| Projection.MaxOf | frontend/app/admin/mapper/page.tsx:262 | `Math.max(...)` is one of the elements and above every element |
| Projection.Lats | frontend/app/admin/mapper/page.tsx:259 | the latitudes of the points, one per point, in order |
| Projection.Lngs | frontend/app/admin/mapper/page.tsx:260 | the longitudes of the points, one per point, in order |
| Projection.Range | frontend/app/admin/mapper/page.tsx:267-268 | the span is positive: `max - min` when they differ, 0.0001 when they are equal |
| Projection.BoundsOf | frontend/app/admin/mapper/page.tsx:259-264 | the bounding box holds every recorded point |
| Projection.SvgPathAt | frontend/app/admin/mapper/page.tsx:270-276 | command i is at x = ((lng - minLng) / lngRange) * 100, y = 100 - ((lat - minLat) / latRange) * 100 |
| Projection.NormInBox | frontend/app/admin/mapper/page.tsx:273-274 | a value inside the bounds is scaled into [0, 100] |
| Projection.NormAtLow | frontend/app/admin/mapper/page.tsx:273 | the lower bound is scaled to 0 |
| Projection.NormAtHigh | frontend/app/admin/mapper/page.tsx:273 | the upper bound of a non-zero span is scaled to 100 |
| Projection.NormMonotone | frontend/app/admin/mapper/page.tsx:273-274 | scaling keeps the order of values |
| Projection.SvgPathInBox | frontend/app/admin/mapper/page.tsx:270-276 | every drawn x and y lies in [0, 100] |
| Projection.SvgPathShape | frontend/app/admin/mapper/page.tsx:255-278 | fewer than two points give the empty path, and only they do; otherwise one M, then one L per further point, then Z |
| Projection.SvgPathMinLng | frontend/app/admin/mapper/page.tsx:273 | a point of least longitude is drawn at x = 0 |
| Projection.SvgPathMaxLat | frontend/app/admin/mapper/page.tsx:274 | a point of greatest latitude is drawn at y = 0 whenever some point lies further south |
| Projection.SvgPathMaxLng | frontend/app/admin/mapper/page.tsx:273 | a point of greatest longitude is drawn at x = 100 whenever some point lies further west |
| Projection.SvgPathMinLat | frontend/app/admin/mapper/page.tsx:274 | a point of least latitude is drawn at y = 100 |
| Projection.SvgPathDegenerate | frontend/app/admin/mapper/page.tsx:266-274 | with one shared longitude every point is at x = 0; with one shared latitude every point is at y = 100 |
| Projection.SvgPathMonotone | frontend/app/admin/mapper/page.tsx:273-274 | east is never drawn left of west, and north is never drawn below south |
| Mapper.FindByName | frontend/app/admin/mapper/page.tsx:163 | `places.find` with lower-cased names: the first case-insensitive match, or none exactly when no entry matches |
| Mapper.FirstMatchUnique | frontend/app/admin/mapper/page.tsx:163 | the first match is unique |
| Mapper.FindByNameIgnoresCase | frontend/app/admin/mapper/page.tsx:159-163 | names equal after lower-casing find the same entry |
| Mapper.ChildrenOf | frontend/app/admin/mapper/page.tsx:284 | exactly the entries whose `parent_id` is the given id, in roster order (ChildrenOfAppend) |
| Mapper.ChildrenOfAppend | frontend/app/admin/mapper/page.tsx:284 | the filter keeps roster order: the children of a concatenation are those of its first part followed by those of its second |
| Mapper.VisibleList | frontend/app/admin/mapper/page.tsx:282-285 | an empty or unmatched parent name shows the whole roster; a matching one shows the children of the first match |
| Mapper.ParentSuggestions | frontend/app/admin/mapper/page.tsx:314 | exactly the entries with a falsy `parent_id` whose name differs, case-sensitively, from the typed name, in roster order (ParentSuggestionsAppend) |
| Mapper.ParentSuggestionsAppend | frontend/app/admin/mapper/page.tsx:314 | the suggestions keep roster order: those of a concatenation are those of its first part followed by those of its second |
| Mapper.ResolveParentId | frontend/app/admin/mapper/page.tsx:159-160 | the id of the first case-insensitive match of the trimmed parent name; null exactly when nothing matches |
| Mapper.PlanSave | frontend/app/admin/mapper/page.tsx:146-211 | a blank name, and only a blank name, asks for a name. A match gives a PUT to its id with the points, the description in both fields and the resolved parent. No match with no points throws. No match otherwise gives a POST at the first point with the create defaults |
| Mapper.SavePutsIffMatched | frontend/app/admin/mapper/page.tsx:163-187 | a PUT is sent exactly when the trimmed name matches a roster entry, and its id is that entry's |
| Mapper.SaveCreatesAtFirstPoint | frontend/app/admin/mapper/page.tsx:187-210 | a created place is at the first recorded point, carries all the points and the trimmed name, and has a non-empty short description |
| Mapper.SaveStatusMessages | frontend/app/admin/mapper/page.tsx:146-224 | the status line for each outcome; an update names the entry as stored in the roster |
| Mapper.SaveResolvesIgnoringCase | frontend/app/admin/mapper/page.tsx:159-187 | names equal after trimming and lower-casing send the same update |
| Mapper.DescriptionOf | frontend/app/admin/mapper/page.tsx:40 | `short_desc || description || ""`: a non-empty short description wins, then the description; empty exactly when both are absent or empty |
| Mapper.FindById | frontend/app/admin/mapper/page.tsx:46 | `places.find` by id: the first entry with that id, or none exactly when no entry has it |
| Mapper.SyncForm | frontend/app/admin/mapper/page.tsx:34-80 | an empty or unmatched typed name leaves the form; the first case-insensitive match loads its description, its points (empty only when absent), a "Loaded details" status, and its parent's name when it has one the roster holds, the parent field being kept otherwise |
| Mapper.SyncIdempotent | frontend/app/admin/mapper/page.tsx:34-80 | a second run of the effect on its own output changes nothing |
| Mapper.SelectForm | frontend/app/admin/mapper/page.tsx:421-440 | the click loads the entry's description and points, its parent's name or the empty string, and a "Loaded boundary" or "Selected" status |
| Mapper.ClickThenSync | frontend/app/admin/mapper/page.tsx:34-80 | after a click on an entry its own name resolves to, the effect keeps the clicked fields and replaces the status with "Loaded details" |
| Mapper.SaveMessageReplacedByRefresh | frontend/app/admin/mapper/page.tsx:181-183 | a successful update's message is replaced by the refresh's "Loaded details for Harem" |
| Mapper.MapperPage.constructor | frontend/app/admin/mapper/page.tsx:19-27 | the initial page state: empty fields, not recording, no watch |
| Mapper.MapperPage.SyncFromName | frontend/app/admin/mapper/page.tsx:34-80 | one run of the name-sync effect writes the form SyncForm gives for the roster and typed name, and changes nothing else |
| Mapper.MapperPage.FetchPlaces | frontend/app/admin/mapper/page.tsx:82-96 | a successful fetch replaces the roster and the name-sync effect then runs on it; a failed one changes nothing |
| Mapper.MapperPage.TypeName | frontend/app/admin/mapper/page.tsx:327 | typing sets the name; when it changed, the name-sync effect runs |
| Mapper.MapperPage.SelectPlace | frontend/app/admin/mapper/page.tsx:421-440 | a roster click fills the form from the entry, then the name-sync effect runs when the name changed |
| Mapper.MapperPage.TypeParentName | frontend/app/admin/mapper/page.tsx:309 | typing in the parent field sets it and nothing else; the name-sync effect does not depend on it |
| Mapper.MapperPage.ShowAll | frontend/app/admin/mapper/page.tsx:403 | "Show All" clears the parent field, so the roster list shows the whole roster, and changes nothing else |
| Mapper.MapperPage.TypeDescription | frontend/app/admin/mapper/page.tsx:344 | typing in the description field sets it and nothing else |
| Mapper.MapperPage.StartRecording | frontend/app/admin/mapper/page.tsx:106-135 | the `startRecording` handler (the button gate of page.tsx:351 is not modelled): without geolocation only the status changes; otherwise recording starts on an empty point list and the new watch is held |
| Mapper.MapperPage.OnPosition | frontend/app/admin/mapper/page.tsx:117-123 | each position update appends exactly one point at the end |
| Mapper.MapperPage.OnStreamError | frontend/app/admin/mapper/page.tsx:124-128 | a stream error turns recording off and sets the status; the watch stays registered |
| Mapper.MapperPage.StopRecording | frontend/app/admin/mapper/page.tsx:137-144 | a held watch is cleared and forgotten, an absent one changes nothing; recording is off and the status reports the point count |
| Mapper.MapperPage.ToggleRecording | frontend/app/admin/mapper/page.tsx:98-104 | stops while recording, starts otherwise |
| Mapper.MapperPage.ClearPoints | frontend/app/admin/mapper/page.tsx:376-378 | the Clear Points button empties the points unless recording, when it is disabled |
| Mapper.MapperPage.Save | frontend/app/admin/mapper/page.tsx:146-224 | the `saveBoundary` handler (the button gate of page.tsx:370 is not modelled): sends the request PlanSave decides and sets the status SaveStatus gives; the refresh that follows a 2xx answer is a separate FetchPlaces |
| Mapper.MapperPage.DeletePlace | frontend/app/admin/mapper/page.tsx:226-252 | a DELETE for the given id is sent exactly when confirmed; nothing happens otherwise. The status follows the outcome. After a success the form is cleared only when the typed name equals the deleted name exactly |
| Mapper.MapperPage.Preview | frontend/app/admin/mapper/page.tsx:255-278 | the preview has one command per point plus Z, or is empty below two points |
| Mapper.LeakedWatchAfterStreamError | frontend/app/admin/mapper/page.tsx:116-144 | after start, a stream error, a restart and a stop, the first watch is still registered and still appends points |
| I18n.LocaleOf | lib/i18n/LanguageContext.tsx:10-21 | a code names a dictionary exactly when it is one of the five locale codes |
| I18n.TranslateFound | lib/i18n/LanguageContext.tsx:57-63 | a key that resolves to a string in the active locale gives that string |
| I18n.TranslateNotAString | lib/i18n/LanguageContext.tsx:78 | a key that resolves to a non-string gives the key back, without English |
| I18n.TranslateFallsBack | lib/i18n/LanguageContext.tsx:64-74 | at the first missing segment the whole key is looked up in English. An English string leaf is returned; anything else gives the key |
| I18n.TranslateIsLeafOrKey | lib/i18n/LanguageContext.tsx:57-79 | `t` returns a string leaf of the active or English dictionary, or the key |
| I18n.LanguageProvider.constructor | lib/i18n/LanguageContext.tsx:32-33 | starts on 'en', not loaded |
| I18n.LanguageProvider.Init | lib/i18n/LanguageContext.tsx:35-49 | a supported saved locale wins, then a supported browser prefix before the first '-', else the locale is unchanged; loading ends |
| I18n.LanguageProvider.SetLocale | lib/i18n/LanguageContext.tsx:51-54 | switches locale and persists exactly its code under 'app-locale' |
| I18n.LanguageProvider.T | lib/i18n/LanguageContext.tsx:57-79 | the two loops compute the lookup the Translate lemmas characterise |
| Db.Sent | backend/app/api/endpoints/admin.py:160 | the last value a body carries for a key, or none exactly when no entry has that key |
| Db.AssignCol | backend/app/api/endpoints/admin.py:160 | the `setattr` loop writes exactly the sent keys, each with its last value, and keeps every other column |
| Db.SentDistinct | backend/app/api/endpoints/admin.py:160 | in a dictionary each key's value is the one sent |
| Db.Known | backend/app/api/endpoints/admin.py:160 | `dict(exclude_unset=True)` keeps exactly the schema fields that were sent, with their values |
| Db.FirstWhere | backend/app/api/endpoints/admin.py:158 | `.filter(...).first()`: the first row satisfying the condition, or none exactly when no row does |
| Db.Where | backend/app/api/endpoints/admin.py:143-144 | `.filter(...)` keeps exactly the rows satisfying the condition |
| Db.Without | backend/app/api/endpoints/admin.py:169-172 | `.filter(...).delete()` leaves exactly the rows not satisfying the condition |
| Db.WhereAppend | backend/app/api/endpoints/admin.py:143-146 | filtering keeps table order: the matches of `a + b` are those of `a` followed by those of `b` |
| Db.WhereSingle | backend/app/api/endpoints/admin.py:143-144 | a single row is kept exactly when it matches |
| Db.WhereUnique | backend/app/api/endpoints/admin.py:143-144 | filtering keeps primary keys unique |
| Db.UniqueIdsFirst | backend/app/api/endpoints/admin.py:158 | looking a key up finds its one row |
| Db.Table.constructor | backend/app/api/endpoints/admin.py:150-153 | an empty table whose first key is 1 |
| Db.Table.Insert | backend/app/api/endpoints/admin.py:150-153 | `add` and `commit`: one row appended under the next key, keys stay unique |
| Db.Table.Update | backend/app/api/endpoints/admin.py:158-163 | an unknown key changes nothing; a known one has the items assigned in order, in place |
| Db.Table.DeleteWhere | backend/app/api/endpoints/admin.py:169-173 | exactly the matching rows go |
| Admin.Window | backend/app/api/endpoints/admin.py:146 | `offset(skip).limit(limit)` on SQLite: row i of the result is row Offset(skip) + i of the input; at most `limit` rows, exactly `limit` when enough remain, all remaining rows for a negative limit; a negative offset counts as 0 |
| Admin.WindowNegativeBounds | backend/app/api/endpoints/admin.py:135-136 | a non-positive offset with a negative limit returns every row |
| Admin.ReadPlaces | backend/app/api/endpoints/admin.py:133-146 | the window of the whole table with `include_children`, and otherwise the window of the top-level rows in table order; only stored rows, at most `limit` |
| Admin.ReadPlacesDefaults | backend/app/api/endpoints/admin.py:135-136 | the defaults give the first 100 top-level places |
| Admin.ReadPlacesCovers | backend/app/api/endpoints/admin.py:143-146 | every top-level place is on some page |
| Admin.CreateDefaults | backend/app/api/endpoints/admin.py:12-22 | a created place is active, without boundary and top-level when those fields are omitted, and never has a description |
| Admin.CreatePlace | backend/app/api/endpoints/admin.py:148-154 | one row with every schema field appended under the next key |
| Admin.MissingField | backend/app/api/endpoints/admin.py:44-55 | a required field the body lacks, or none exactly when all are sent |
| Admin.UpdateRecord | backend/app/api/endpoints/admin.py:156-164 | `update_place`: 422 for a missing required field, 404 changing nothing for an unknown id, else the sent schema fields written in place |
| Admin.UpdatedColumn | backend/app/api/endpoints/admin.py:160 | a sent schema field takes the value sent, null included; every other column is unchanged |
| Admin.UpdateClearsParent | backend/app/api/endpoints/admin.py:160 | an explicitly sent null `parent_id` makes the place top-level |
| Admin.UpdateKeepsDescription | backend/app/api/endpoints/admin.py:27-37 | `update_place` never changes `description`, which the update schema lacks |
| Admin.AfterDeletePlaceSurvivors | backend/app/api/endpoints/admin.py:166-174 | a row survives exactly when it is neither the place nor a direct child |
| Admin.DeleteKeepsGrandchildren | backend/app/api/endpoints/admin.py:169-172 | children go, grandchildren stay |
| Admin.DeletePlace | backend/app/api/endpoints/admin.py:166-174 | children and then the place are deleted; "success" either way |
| Admin.DeleteRecord | backend/app/api/endpoints/admin.py:199-203 | `delete_hotel`: only rows with that id go; ok either way |
| Admin.DeleteRecordEffect | backend/app/api/endpoints/admin.py:228-232 | deleting an id keeps every other row and removes every row with that id; an unknown id changes nothing |
| Admin.Upsert | backend/app/api/endpoints/admin.py:268-278 | the key gets the value, its description is kept or null when new, other keys are untouched |
| Admin.UpsertTwice | backend/app/api/endpoints/admin.py:268-278 | a second upsert of the same key overrides the first |
| Admin.ConfigTable.constructor | backend/app/api/endpoints/admin.py:264-266 | the config table as given |
| Admin.ConfigTable.UpdateConfig | backend/app/api/endpoints/admin.py:268-278 | the upsert, applied in place, and the row returned |
| PublicApi.Nearest | backend/app/api/endpoints/api_v1.py:51-64 | among places with both coordinates, one of least distance and strictly nearer than every one before it; none exactly when no place has coordinates |
| PublicApi.Present | backend/app/api/endpoints/api_v1.py:66-70 | the coordinates are copied to `location_lat`/`location_lng` and a falsy description is filled from `short_desc`; all else is kept |
| PublicApi.Truncate | backend/app/api/endpoints/api_v1.py:75 | `int(x)` truncates toward zero |
| PublicApi.GetPlaceByLocation | backend/app/api/endpoints/api_v1.py:27-77 | the nearest active place is returned within 300 m; otherwise a 404 whose detail names the closest place, when there is one |
| PublicApi.Closest | backend/app/api/endpoints/api_v1.py:45-64 | the search loop settles on `Nearest`: the first place with coordinates at the least distance, under strict `<` |
| PublicApi.LocationFound | backend/app/api/endpoints/api_v1.py:43-61 | the chosen place is an active stored row with coordinates, and no such row is nearer |
| PublicApi.GetPlace | backend/app/api/endpoints/api_v1.py:79-90 | 404 exactly when no active row has the id; otherwise that row, presented |
| PublicApi.NarrationText | backend/app/api/endpoints/api_v1.py:105-107 | the description in "long" mode, the short description otherwise, the name when the choice is falsy |
| PublicApi.NarrationNotEmpty | backend/app/api/endpoints/api_v1.py:105-107 | a place with a name always has something to read, and it is one of its three texts |
| PublicApi.PlaceAudioText | backend/app/api/endpoints/api_v1.py:92-107 | 404 "Place not found" exactly when `get_place` would give one; otherwise the narration text of an active stored row with that id |
| PublicApi.GetPlaces | backend/app/api/endpoints/api_v1.py:198-209 | the active top-level places, in table order, each presented |
| PublicApi.GetPlacesListed | backend/app/api/endpoints/api_v1.py:198-209 | each listed place is an active top-level stored row, with a description whenever it has a short description |
| Seed.SeedUsersRows | backend/app/db/init_db.py:7-22 | afterwards the admin exists; if it existed nothing changed, otherwise exactly one admin row is appended |
| Seed.SeedUsersIdempotent | backend/app/db/init_db.py:7-22 | seeding the users twice equals seeding once |
| Seed.SeedUsers | backend/app/db/init_db.py:7-22 | creates the admin exactly when no user has its email |
| Seed.SeedUsersTwice | backend/app/db/init_db.py:7-22 | two runs leave the table as one run does |
| Seed.FirstExisting | backend/app/db/init_db.py:32-36 | the first existing path, or none exactly when none exists |
| Seed.FindCsvPath | backend/app/db/init_db.py:25-42 | the search loop stops at the first existing candidate |
| Seed.ReadRow | backend/app/db/init_db.py:61-75 | a None field crashes; a blank name or coordinates, or anything but two parseable parts, skips; a record with every field present, a non-blank name and coordinates, and two parseable parts is accepted; an accepted row carries the trimmed fields and the parsed parts |
| Seed.ShortDesc | backend/app/db/init_db.py:91 | the first 100 characters plus "..." above 100, else the whole text; at most 103 characters |
| Seed.ApplyValid | backend/app/db/init_db.py:79-99 | one record keeps primary keys unique and below the next key |
| Seed.CrashAborts | backend/app/db/init_db.py:55-63 | one crashing record aborts the run whatever the others hold |
| Seed.ExistingPlaceRefreshed | backend/app/db/init_db.py:95-99 | an exact-name match has only description, latitude and longitude overwritten |
| Seed.NewPlaceAdded | backend/app/db/init_db.py:81-93 | a new name appends one row under the next key: the record's name, description, latitude and longitude, "historical", active, empty photo and audio URLs, and ShortDesc of the description (at most 103 characters) as short description |
| Seed.RunSession | backend/app/db/init_db.py:55-101 | the record loop folds the records as SeedAll does and keeps the keys valid |
| Seed.SeedPlacesFromCsv | backend/app/db/init_db.py:24-103 | no file seeds nothing; a crash commits nothing; otherwise the folded session is committed |
| AiService.SelectVoice | backend/app/services/ai_service.py:37-45 | the four fixed voices, else "en-US-ChristopherNeural"; each voice belongs to its language |
| AiService.ChatResponse | backend/app/services/ai_service.py:65-87 | no key gives the fixed error; a reply its text; a failure the busy message exactly when the error mentions "429", else the generic message |
| AiService.CleanWelcomeChars | backend/app/services/ai_service.py:113 | the cleaned welcome holds no '*' and no '>', and the `</blockquote>` step never finds anything |
| AiService.FallbackOpenings | backend/app/services/ai_service.py:17-26 | every hand-written welcome opens with "Welcome to " |
| AiService.WelcomeMessage | backend/app/services/ai_service.py:94-121 | no key gives "Welcome to {name}."; a reply is cleaned; a failure gives the hand-written welcome, or the generic sentence |
| AiService.WelcomeShape | backend/app/services/ai_service.py:94-121 | unless the model's text is used the welcome opens with "Welcome to "; when it is used it has no markup characters |
| AiService.GeneratePlan | backend/app/services/ai_service.py:135-148 | exactly `days` entries (none for a non-positive count), numbered 1 to days in order, each with the four fixed activities |
| AiService.TranslateText | backend/app/services/ai_service.py:167-196 | a non-empty translated text is returned; otherwise "[target] " + the text; `original` is always the text |
| AiService.TranslateFallbackKeepsText | backend/app/services/ai_service.py:192-196 | the fallback is the language tag followed by the whole input |
| AiService.IdentifyPlace | backend/app/services/ai_service.py:124-132 | always the Kalta Minor Minaret |
| AiService.AnalyzeProduct | backend/app/services/ai_service.py:150-156 | always "Authentic Handmade" |
| AiService.RecognisersConstant | backend/app/services/ai_service.py:124-156 | neither recogniser depends on its input |
| Onboarding.Classify | frontend/components/ui/OnboardingTutorial.tsx:93-98 | a missing or zero end aborts; forward exactly when start - end > 50, back exactly when < -50 |
| Onboarding.SwipeTranslationInvariant | frontend/components/ui/OnboardingTutorial.tsx:96-98 | only the distance travelled matters |
| Onboarding.Tutorial.constructor | frontend/components/ui/OnboardingTutorial.tsx:10-15 | hidden, on the first slide, no touch recorded |
| Onboarding.Tutorial.Mount | frontend/components/ui/OnboardingTutorial.tsx:56-62 | shown exactly when the flag is absent or empty |
| Onboarding.Tutorial.FinishTutorial | frontend/components/ui/OnboardingTutorial.tsx:78-81 | stores "hasSeenOnboarding" = "true" and hides |
| Onboarding.Tutorial.HandleNext | frontend/components/ui/OnboardingTutorial.tsx:64-70 | advances before the last slide; on it, finishes; the slide stays in range |
| Onboarding.Tutorial.HandlePrev | frontend/components/ui/OnboardingTutorial.tsx:72-76 | goes back except on slide 0; the slide stays in range |
| Onboarding.Tutorial.OnTouchStart | frontend/components/ui/OnboardingTutorial.tsx:84-87 | records the start and forgets the end |
| Onboarding.Tutorial.OnTouchMove | frontend/components/ui/OnboardingTutorial.tsx:89-91 | records the end |
| Onboarding.Tutorial.OnTouchEnd | frontend/components/ui/OnboardingTutorial.tsx:93-106 | acts as HandleNext or HandlePrev for the gesture Classify gives, and does nothing otherwise |
| Onboarding.FinishThenRevisit | frontend/components/ui/OnboardingTutorial.tsx:56-81 | once finished, a later mount does not show the tutorial |
| Onboarding.SwipeThrough | frontend/components/ui/OnboardingTutorial.tsx:64-106 | four forward swipes from a first visit close the tutorial and store the flag |
| Plan.Drop | frontend/app/plan/page.tsx:20 | `filter(i => i !== id)` removes every copy of the id and keeps every other element's count |
| Plan.ToggleInterest | frontend/app/plan/page.tsx:18-24 | a selected id is removed everywhere; an unselected one is appended; others stay selected as they were |
| Plan.DropKeepsOrder | frontend/app/plan/page.tsx:20 | removal keeps the others in order |
| Plan.ToggleKeepsOthers | frontend/app/plan/page.tsx:18-24 | toggling keeps the other ids in their order |
| Plan.ToggleNoDuplicates | frontend/app/plan/page.tsx:18-24 | toggling keeps a list duplicate-free |
| Plan.ToggleTwice | frontend/app/plan/page.tsx:18-24 | an unselected id toggled twice restores the list; a selected one returns at the end with the same multiset |
| Plan.DropAppended | frontend/app/plan/page.tsx:20-22 | removing a just-appended new id restores the list |
| Plan.PlanPage.constructor | frontend/app/plan/page.tsx:12-16 | step 1, nothing chosen, nothing generated |
| Plan.PlanPage.ChooseDuration | frontend/app/plan/page.tsx:48-51 | a click on one of the four duration buttons sets the duration to that option and nothing else; it enables Continue, and the page invariant keeps every chosen duration among the four |
| Plan.PlanPage.ContinueDisabled | frontend/app/plan/page.tsx:61 | disabled exactly while no non-empty duration is chosen |
| Plan.PlanPage.Continue | frontend/app/plan/page.tsx:61 | goes to step 2 unless disabled |
| Plan.PlanPage.ProgressWidth | frontend/app/plan/page.tsx:158 | 50 or 100, and 100 exactly on step 2 |
| Plan.PlanPage.ToggleInterestClick | frontend/app/plan/page.tsx:88 | the interests become their toggle |
| Plan.PlanPage.GeneratePlan | frontend/app/plan/page.tsx:26-27 | shows the spinner and nothing else |
| Plan.PlanPage.OnTimer | frontend/app/plan/page.tsx:28-31 | the spinner stops and the itinerary is shown |
| Plan.PlanPage.StartOver | frontend/app/plan/page.tsx:144 | only `generated` is reset |
| Plan.Walkthrough | frontend/app/plan/page.tsx:51-88 | choose, continue, pick, generate: the itinerary is shown at 100 percent with the one interest |
| Restaurants.Group | frontend/app/restaurants/page.tsx:19 | the entries with the given flag, in order |
| Restaurants.RecommendedFirstPermutation | frontend/app/restaurants/page.tsx:19 | the shown list is a permutation of the fetched one |
| Restaurants.RecommendedFirstOrdered | frontend/app/restaurants/page.tsx:18-19 | every recommended entry precedes every other |
| Restaurants.RecommendedFirstStable | frontend/app/restaurants/page.tsx:19 | each group keeps the fetched order |
| Restaurants.StableSortUnique | frontend/app/restaurants/page.tsx:19 | any stable sort by the comparator gives this list |
| Restaurants.GroupAppend | frontend/app/restaurants/page.tsx:19 | grouping distributes over concatenation |
| Restaurants.GroupOfGroup | frontend/app/restaurants/page.tsx:19 | grouping a group changes nothing |
| Restaurants.GroupsPermutation | frontend/app/restaurants/page.tsx:19 | the two groups hold the fetched entries |
| Restaurants.OrderedIsGroups | frontend/app/restaurants/page.tsx:19 | an ordered list is its two groups in turn |
| Restaurants.GroupAll | frontend/app/restaurants/page.tsx:19 | a list of recommended entries is its own recommended group |
| Restaurants.Compare | frontend/app/restaurants/page.tsx:19 | the comparator orders recommended before others and ties equal flags |
| Restaurants.RecommendedFirstSorted | frontend/app/restaurants/page.tsx:19 | no pair of the shown list is out of comparator order |
| Restaurants.SortRecommendedFirst | frontend/app/restaurants/page.tsx:19 | the array is sorted in place into the recommended-first order |
| Restaurants.RestaurantsPage.constructor | frontend/app/restaurants/page.tsx:12-13 | nothing loaded, loading |
| Restaurants.RestaurantsPage.Load | frontend/app/restaurants/page.tsx:15-27 | success shows the sorted list, failure keeps the old one; loading ends either way |
| Translate.FindLanguage | frontend/app/translate/page.tsx:74 | `find` by code: the first entry with that code, or none exactly when none has it |
| Translate.SpeechCode | frontend/app/translate/page.tsx:74-75 | the recognition language is never empty |
| Translate.SpeechCodes | lib/constants.ts:10-16 | each supported code is heard in its own regional variant, any other in 'en-US' |
| Translate.TranslatePage.constructor | frontend/app/translate/page.tsx:16-23 | Turkish to English, empty texts |
| Translate.TranslatePage.SwapLanguages | frontend/app/translate/page.tsx:97-102 | the pair is reversed and both texts are cleared |
| Translate.TranslatePage.HandleTranslate | frontend/app/translate/page.tsx:39-56 | blank text is a no-op; otherwise the request is sent, and the result or "Error translating text." is shown with `isTranslating` false |
| Translate.TranslatePage.StartListening | frontend/app/translate/page.tsx:67-75 | the recognition uses the source language's speech code; nothing without speech recognition |
| Translate.TranslatePage.ToggleRecording | frontend/app/translate/page.tsx:58-65 | the microphone button stops and turns recording off while recording, and otherwise starts listening in the source language's speech code |
| Translate.TranslatePage.SetSrcLang | frontend/app/translate/page.tsx:114 | the source select sets the source language and nothing else |
| Translate.TranslatePage.SetTgtLang | frontend/app/translate/page.tsx:131 | the target select sets the target language and nothing else |
| Translate.TranslatePage.OnRecognitionStart | frontend/app/translate/page.tsx:77-81 | recording, both texts cleared |
| Translate.TranslatePage.OnRecognitionResult | frontend/app/translate/page.tsx:83-87 | the transcript is shown and translated |
| Translate.TranslatePage.OnRecognitionEnd | frontend/app/translate/page.tsx:89 | recording ends, nothing else changes |
| Translate.SwapTwice | frontend/app/translate/page.tsx:97-102 | swapping twice restores the pair |
| Translate.FirstRequest | frontend/app/translate/page.tsx:22-23 | a fresh page translates Turkish to English and listens in 'tr-TR' |
| Text.Lower | frontend/app/admin/mapper/page.tsx:163 | `toLowerCase`: same length, each character lower-cased |
| Text.LowerIdempotent | frontend/app/admin/mapper/page.tsx:159 | lower-casing twice is lower-casing once |
| Text.Trim | frontend/app/admin/mapper/page.tsx:149 | `trim`: a contiguous block of the input, with only whitespace before and after it, that neither starts nor ends with whitespace |
| Text.TrimBounds | frontend/app/admin/mapper/page.tsx:149 | the kept block runs from the first non-whitespace character to just after the last one |
| Text.TrimIdempotent | frontend/app/admin/mapper/page.tsx:163 | trimming twice is trimming once |
| Text.TrimChars | backend/app/db/init_db.py:61-63 | `strip` adds no character |
| Text.TrimEmptyIff | frontend/app/admin/mapper/page.tsx:149 | `!placeName.trim()` holds exactly for an all-whitespace name |
| Text.Split | lib/i18n/LanguageContext.tsx:58 | `split`: at least one part, and no part holds the separator |
| Text.JoinSplit | backend/app/db/init_db.py:70 | joining the parts with the separator gives the input back |
| Text.SplitNoSeparator | lib/i18n/LanguageContext.tsx:43 | a string without the separator is its own only part |
| Text.RemoveAll | backend/app/services/ai_service.py:113 | `replace(p, "")`: no longer than the input and no new character |
| Text.RemoveAllSubsequence | backend/app/services/ai_service.py:113 | what is kept stays in the input's order |
| Text.RemoveAllKeepsOthers | backend/app/services/ai_service.py:113 | every copy of a character the pattern lacks is kept |
| Text.RemoveAllCharMultiset | backend/app/services/ai_service.py:113 | removing a one-character pattern such as `'*'` removes every copy of it and nothing else |
| Text.RemoveAllCharAppend | backend/app/services/ai_service.py:113 | removing one character distributes over concatenation |
| Text.RemoveAllChar | backend/app/services/ai_service.py:113 | removing a one-character pattern leaves no occurrence of it |
| Text.RemoveAllAbsent | backend/app/services/ai_service.py:113 | removing a pattern the text cannot hold changes nothing |
| Text.NatToString | frontend/app/admin/mapper/page.tsx:143 | decimal digits with no leading zero except for 0 itself |
| Text.NatToStringValue | frontend/app/admin/mapper/page.tsx:143 | the decimal rendering of a natural number reads back as that number |
| Text.IntToString | backend/app/services/ai_service.py:137 | decimal digits whose value is the number, with no leading zero, after a minus sign exactly when it is negative |

## Behaviour of the code worth knowing

Each item is something the code does, with the lines that show it. The model
does the same.

- The visible list shows the whole roster when the parent name matches
  nothing, not an empty list (mapper page.tsx:282-285).
- The visible list compares the parent name untrimmed (page.tsx:282), while
  Save trims it before resolving (page.tsx:159).
- Creating with no recorded points throws inside the `try` at
  `recordedPoints[0].lat` (page.tsx:190). The user sees "Error saving:
  TypeError: ..." (page.tsx:222) and no request is sent. The model has this
  path (`NoFirstPoint`) instead of a precondition.
- The maximum-latitude point is drawn at y = 0 only when the latitudes differ.
  With one shared latitude the 0.0001 span (page.tsx:267) draws every point
  at y = 100 (page.tsx:274).
- The mapper sends `description` (page.tsx:176, 206), but neither
  `PlaceCreate` nor `PlaceUpdate` declares it (admin.py:12-37). Pydantic
  drops it, so the back end never stores it.
- A stream error turns recording off without clearing the watch
  (page.tsx:124-128). A later stop releases only the newest watch
  (page.tsx:138-141; `LeakedWatchAfterStreamError`).
- The name-sync effect (page.tsx:34-80) runs whenever the typed name or the
  roster changes. A successful save or delete refetches the roster
  (page.tsx:183, 215, 245), so when the typed name is still in the roster the
  save message gives way to "Loaded details for ..."
  (`SaveMessageReplacedByRefresh`). A roster click's own status is replaced
  the same way whenever the click changes the name (`ClickThenSync`).
- `HotelUpdate`, `RestaurantUpdate` and `ShopUpdate` extend the base schemas
  (admin.py:54, 73, 93), so a partial update without `name` is rejected with
  422.
- The onboarding flag counts as unseen when absent *or empty*, as
  `!localStorage.getItem(...)` has it (OnboardingTutorial.tsx:58-59).
- A CSV line with missing trailing fields yields None values from
  `csv.DictReader` (init_db.py:49). `.strip()` then raises outside any `try`
  (init_db.py:61-63), so the whole seeding run stops and nothing is
  committed.

## Left out

- HTTP and fetch plumbing, the JWT checks and application start-up: requests are outcome values.
- The Haversine formula: the distance is a function parameter.
- IEEE floating point: coordinates, distances and the projection are Dafny `real`. The SVG is a command sequence, not the formatted string. JavaScript's NaN coordinates are not modelled.
- React scheduling: asynchronous state batching and stale closures are not modelled. For example, `stopRecording` reports a point count it may read stale.
- Concurrency and timers: the planner's two-second wait is an explicit `OnTimer` step. The camera page is not part of this model.
- `get_place_intro` calls an undefined `crud` and is not part of this model.
- The remote services (Gemini, MyMemory, edge_tts) are outcome parameters, and the prompts sent to them are not modelled.
- Audio generation and the resulting 500 error are not modelled.
- The list endpoints other than `read_places`, `create_hotel`/`create_restaurant`/`create_shop`, the dashboard statistics, and the public hotel, restaurant, shop and config lists are not modelled.
- `localStorage` is modelled only through the keys used above.
- The translator's automatic speech of the result and its alert for browsers without speech recognition are not modelled.
- Presentational components and one-off scripts are not modelled.
- The mapper's Start Recording and Save buttons are disabled for an empty name, and while recording or with neither points nor a name (page.tsx:351, 370). Mapper.MapperPage.StartRecording and Mapper.MapperPage.Save model the handlers alone and accept the inputs those gates exclude. The translator's play-audio button (translate/page.tsx:161) is not modelled.
- Text.Trim: strips ASCII whitespace only, while JavaScript `trim` and Python `strip` also strip other Unicode spaces.
- Text.Lower: lower-cases ASCII letters only. JavaScript `toLowerCase` also folds other scripts, so names differing only in non-ASCII case are treated as different.
- I18n.Translate: JSON arrays and members inherited through the prototype chain (`"toString" in value`) are not modelled. Locale files are plain nested objects of strings.
- I18n.LanguageProvider.Init: a saved value naming an `Object.prototype` member such as "constructor" passes the `dictionaries[savedLocale]` test in JavaScript. Here only the five codes do.
- Plan.ToggleTwice: a *selected* id toggled twice returns at the end of the list, not at its old position. So "toggling twice restores the list" holds only for an unselected id, plus equal contents for a selected one.
- Projection.SvgPathMaxLat: holds only when some point lies further south. "Behaviour of the code worth knowing" covers the case where every latitude is the same.
- Restaurants.SortRecommendedFirst: specified by the result of a stable sort, as ECMAScript 2019 requires. The browser's sorting algorithm itself is not modelled.
- Restaurants.Restaurant: holds only the fields the ordering reads, plus name and active flag. The optional display fields are omitted.
- Seed.ReadRow: `float()` is a parse parameter, and its accepted syntax is not modelled.
- Admin.UpdateRecord: the only 422 is a missing required field. Type errors in the body are not modelled because items already carry typed values.
- Admin.Window: follows SQLite's reading of negative bounds (a negative LIMIT is no limit, a negative OFFSET counts as 0). Another database engine could read them differently; only SQLite is modelled.
- Seed.Session: assumes the query by name (init_db.py:79) sees the run's own pending inserts, as SQLAlchemy's default autoflush gives. The session factory is not part of this model. With `autoflush=False`, a name repeated in the CSV would be inserted twice, since `Place.name` is not unique (all_models.py:22).
- Db.Table.Insert: keys come from a counter that never goes back, so a deleted key is never handed out again. SQLite's INTEGER PRIMARY KEY without AUTOINCREMENT (SQLite is the configured database, config.py:11) gives one more than the largest key in use, so deleting the newest row lets its key come back. The model keeps key uniqueness but not the exact key.
- Admin.UpdateRecord: answers `Ok` once the row is written. The response model `PlaceResponse` (admin.py:39) requires latitude, longitude, `is_active` and type. So an update that sets one of them to null commits and then answers 500, and the model does not capture the response validation.
- PublicApi.GetPlaces: returns the listed rows. The response model `schemas.Place` (schemas.py:18-35) requires a name and a type, so a stored row with a null one makes the real answer 500. Response validation is not modelled here or in PublicApi.GetPlace.
- Mapper.NoFirstPointError: the text of the TypeError is V8's (Chrome, Node.js). Other JavaScript engines word it differently.
