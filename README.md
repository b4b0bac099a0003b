# A verified model of the Ennimex back end's rule sets

The back end is an Express/Mongoose REST service for a small catalogue and
content site: products, categories, localities, services, gallery photos and
videos, events and user profiles. Most of it hands requests to the database
driver or the media host. This project models the rules the service itself
decides, in Dafny, and proves what those rules promise.

- **Request guard** (`Guard`). `authenticate` reads the token from the
  `Authorization` header. It either lets the request through with the token's
  claims in `req.user`, or answers 401 and says whether the token expired.
  `checkRole` and `isAdmin` answer 403 to a role that is not allowed. Token
  verification is an input.
- **Event purge time** (`Clock`, `AutoDelete`, `Eventos`). The create and
  update hooks, and `updateEvento`, compute `fechaEliminacion`. It is twelve
  hours after the event ends, and the event ends at the "HH:MM" end time of
  its local day, or at 23:59:59.999. Dates are integer milliseconds or NaN.
  `setHours` is modelled on a mutable `JsDate` object, so the model shows
  where the code copies a date and where it aliases one. The event
  controller's time-zone shift is part of the model.
- **User model** (`EmailFormat`, `UserModel`). This covers the email pattern,
  the setters and validators of the schema, the pre-save rehash guard,
  `matchPassword`, and the token-lifetime normaliser of `getSignedJwtToken`.
- **Profile controller** (`Perfil`). The guard chains of `updateProfile` and
  `changePassword`, and the fields a reply exposes.
- **Media handling** (`Media`, `Videos`, `Fotos`, `Servicios`, `Categorias`,
  `Productos`). This covers:
  - the MIME-prefix upload filters;
  - how the id destroyed on the media host is derived from a stored URL;
  - partial-update payloads, where only truthy text fields are written and
    media fields only after an upload;
  - the bounded retry of video uploads;
  - the normalisation and existence check of a product's size list.
- **Name uniqueness** (`Localidades`, `Servicios`). Each is a table class
  holding a map from id to record. The model keeps the controllers' order of
  the 404 and name-clash checks, and proves that sequential creates and
  updates keep names unique.

Shared pieces are `Wrappers` (Option, Result) and `JsText`. `JsText` holds
the JavaScript string operations the code relies on: truthiness, `||`,
`trim`, `toLowerCase`, `split`, `indexOf`, `join` and `parseInt`.

Inputs stand for everything outside the process:
- the database is a map, or a class holding a map;
- the media host's upload outcome is an `Upload` value, or for videos a
  function from attempt number to outcome;
- `verifyToken` is a function returning `Decoded`, `TokenExpired` or
  `TokenInvalid`;
- bcrypt's hash, compare and salt are function and string parameters;
- the thumbnail URL builder is a function parameter;
- `ObjectId.isValid` is a function parameter;
- the clock is an integer parameter, and the time-zone offset is an integer
  parameter;
- parsing a date string is a function parameter.

### Where the code and the system's design description differ

The model follows the code in each case.
- The token is the second space-separated word of the header. The scheme
  name before it is never checked (`Guard.TokenAfterAnyScheme`). The design
  description expects the literal scheme `Bearer`.
- An end time whose parts are not numeric gives a NaN date, not an error
  (`AutoDelete.PurgeTimeInvalidEndTime`). The design description asks for an
  `InvalidSchedule` failure.
- The lifetime pattern lists `s`, `sec`, `second(s)`, `m`, `min`,
  `minute(s)`, `h`, `hr` and `hour(s)`. So "secs", "mins" and "hrs" are
  rejected, while the design description lists `sec(s)` and `min(s)`.
  The pattern also accepts a fraction and white space before the unit
  (`UserModel.ExpireRejectsSecs`, `UserModel.ExpireAcceptsFraction`).
- Checking a role without an authenticated user reads a property of
  `undefined`, which throws a TypeError. The model has a `Throw` step for it.
  The design description leaves this case undefined.
- The role is an open string compared against literals, not a closed
  enumeration.

## Model

| member | source | states |
|---|---|---|
| Guard.AuthProceedsIff | middlewares/auth.js:6-29 | a request goes on exactly when the header's token is non-empty and verifies; then `req.user` is the token's payload, and every path either answers or goes on |
| Guard.AuthRefusals | middlewares/auth.js:8-11 | every refusal is a 401, with `isExpired` true exactly when verification reported an expired token |
| Guard.TokenAfterAnyScheme | middlewares/auth.js:7 | the token is the word after the first space, whatever scheme word precedes it |
| Guard.BearerToken | middlewares/auth.js:7 | "Bearer <token>" yields the token |
| Guard.MissingTokenRefused | middlewares/auth.js:7-11 | an absent header, a one-word header and "Bearer " with nothing after it get 401 "No autorizado" with `isExpired` false, whatever the verifier says |
| Guard.RoleStep | middlewares/auth.js:38-44 | 403 exactly when there is a user whose role is absent or not allowed; a TypeError exactly when no user was set; otherwise the request goes on |
| Guard.IsAdminIsCheckRoleAdmin | middlewares/auth.js:31-36 | `isAdmin` takes the same decision as `checkRole(['admin'])`, differing only in the 403 message |
| Guard.Exchange.Authenticate | middlewares/auth.js:6-29 | exactly one step is taken, and `req.user` changes only when the request goes on |
| Guard.Exchange.CheckRole | middlewares/auth.js:38-44 | exactly one step, the role decision, and `req.user` untouched |
| Guard.Exchange.IsAdmin | middlewares/auth.js:31-36 | exactly one step, the admin decision, and `req.user` untouched |
| Clock.TimeClip | middlewares/autoDeleteEvents.js:18 | a time value is valid exactly within ±8.64e15 ms and is then kept as it is |
| Clock.LocalDayStartBounds | middlewares/autoDeleteEvents.js:13 | the local day start is a local midnight at most one day before the instant |
| Clock.LocalDayStartOfDay | middlewares/autoDeleteEvents.js:13 | every instant of a local day has the same day start |
| Clock.JsDate.SetHours | middlewares/autoDeleteEvents.js:13 | `setHours` changes the date object in place to the wall-clock time on its local day |
| AutoDelete.HourMinuteOfDigits | middlewares/autoDeleteEvents.js:11-12 | "H:M" made of decimal digits splits at ':' and parses to the decimal values of H and M |
| AutoDelete.HourMinuteExample | middlewares/autoDeleteEvents.js:11-12 | "18:30" gives hour 18 and minute 30 |
| AutoDelete.EventEndOfHourMinute | middlewares/autoDeleteEvents.js:10-12 | with an end time parsing to H and M, the end is the local day start + H·3,600,000 + M·60,000 ms, seconds and ms zero |
| AutoDelete.EventEndAllDay | middlewares/autoDeleteEvents.js:13-15 | without an end time, the end is the local day start + 86,399,999 ms |
| AutoDelete.PurgeTwelveHoursAfterEnd | middlewares/autoDeleteEvents.js:18 | the purge time is exactly the end + 43,200,000 ms |
| AutoDelete.PurgeTimeInvalidEndTime | middlewares/autoDeleteEvents.js:11-12 | an end time with no number at the start of its hour part or of its minute part, or with no ':', gives an invalid date |
| AutoDelete.PurgeTimeOfNaN | middlewares/autoDeleteEvents.js:11-12 | a NaN hour or minute makes the purge time an invalid date |
| AutoDelete.MinutePartNaN | middlewares/autoDeleteEvents.js:11 | the minute is NaN when the text after the first ':' starts with no number |
| AutoDelete.PurgeTimeExampleBadMinute | middlewares/autoDeleteEvents.js:11-12 | "12:ab" gives an invalid date |
| AutoDelete.PurgeTimeOfInvalidDate | middlewares/autoDeleteEvents.js:7-18 | an invalid date gives an invalid purge time |
| AutoDelete.PurgeTimeExampleEndTime | middlewares/autoDeleteEvents.js:7-18 | an event on 1970-01-02 in a UTC process ending at "18:30" is purged at 06:30 the next day |
| AutoDelete.PurgeTimeExampleAllDay | middlewares/autoDeleteEvents.js:13-18 | the same event without an end time is purged at 11:59:59.999 the next day |
| AutoDelete.WithHoursStable | middlewares/autoDeleteEvents.js:12 | setting the same wall-clock time twice lands on the same instant, so recomputing does not drift |
| AutoDelete.EventDoc.CalcularFechaEliminacion | middlewares/autoDeleteEvents.js:4-23 | acts only when `fecha` is set and no purge time exists; it then stores the purge time of `fecha` and `horaFin`, computed on a copy, so `fecha` keeps its value |
| AutoDelete.CreateHookRunsOnce | middlewares/autoDeleteEvents.js:5 | an existing purge time is never overwritten, and a dated document ends with one |
| AutoDelete.CalcularFechaEliminacionUpdate | middlewares/autoDeleteEvents.js:26-45 | only a truthy `fecha` or `horaFin` adds `fechaEliminacion`; the base is the update's date, the parsed string or the current instant |
| Eventos.ShiftKeepsWallClock | controllers/eventosController.js:32-37 | the shifted date's local day begins the offset after the parsed date's UTC day, and its local wall clock reads the parsed UTC wall clock |
| Eventos.ShiftOfUtcMidnight | controllers/eventosController.js:32-37 | a date string read as UTC midnight is stored as local midnight of the same calendar day |
| Eventos.CreateEvento | controllers/eventosController.js:27-52 | the new document holds exactly the six body fields, a truthy date parsed and shifted by the offset, and no purge time |
| Eventos.UpdateEvento | controllers/eventosController.js:55-97 | the update holds all six fields; a purge time is added exactly when `fecha` or `horaFin` is truthy, from the shifted date or the current instant; the stored date itself is moved to the event's end; an unknown id is 404 |
| EmailFormat.EmailIffPattern | models/User.js:18 | the scanner accepts exactly what the regular expression matches |
| EmailFormat.DomainIff | models/User.js:18 | the part after '@' is a separated word ending in a '.' and 2-3 word characters exactly when it matches `\w+([\.-]?\w+)*(\.\w{2,3})+` |
| EmailFormat.ChainIffSepWord | models/User.js:18 | `\w+([\.-]?\w+)*` matches exactly the words whose separators neither lead, trail nor double |
| EmailFormat.EmailShape | models/User.js:18 | an accepted address has exactly one '@' and no white space |
| EmailFormat.EmailChars | models/User.js:18 | every character of an accepted address but its '@' is a word character, '.' or '-' |
| EmailFormat.EmailSeparators | models/User.js:18 | in an accepted address no '.' or '-' leads or trails either side of the '@', and none follows another |
| EmailFormat.DoubleSepRejected | models/User.js:18 | two separators in a row are rejected |
| EmailFormat.SecondAtRejected | models/User.js:18 | a second '@' is rejected |
| EmailFormat.EmailIsTrimmed | models/User.js:18-22 | trimming leaves an accepted address unchanged |
| EmailFormat.LowerKeepsEmail | models/User.js:18-21 | the lower-cased form of an accepted address is accepted |
| EmailFormat.EmailAccepts | models/User.js:18 | "ana.p@mail-x.com" is accepted |
| EmailFormat.EmailRejectsDoubleDot | models/User.js:18 | "ana..p@mail.com" is rejected |
| EmailFormat.EmailRejectsShortEnding | models/User.js:18 | "ana@mail.c" is rejected |
| EmailFormat.EmailRejectsSecondAt | models/User.js:18 | "a@b@mail.com" is rejected |
| UserModel.ValidExpireIffPattern | models/User.js:74 | the lifetime scanner accepts exactly what the pattern matches: digits, an optional fraction, optional white space, then a listed unit in any case |
| UserModel.RawExpireTrimsFallback | models/User.js:66-69 | an unset or empty setting reads as '1h'; any other is trimmed, as trimming the setting or its fallback does |
| UserModel.NormaliseExpire | models/User.js:66-79 | the lifetime handed to the signer always matches the pattern, and is either '1h' or the trimmed setting |
| UserModel.NormaliseKeepsValid | models/User.js:74-79 | an accepted lifetime is kept as it is |
| UserModel.NormaliseExpireOfSetting | models/User.js:66-79 | for any setting, its trim is kept exactly when the pattern accepts it, and '1h' is used otherwise |
| UserModel.NormaliseExpireIdempotent | models/User.js:66-79 | normalising a normalised lifetime changes nothing |
| UserModel.NormaliseExpireUnset | models/User.js:66 | an unset or empty setting becomes '1h' |
| UserModel.NormaliseExpireRejected | models/User.js:76-79 | a rejected setting becomes '1h' |
| UserModel.NormaliseExpireTrims | models/User.js:69 | a padded accepted setting is stored trimmed |
| UserModel.ExpireAcceptsFraction | models/User.js:74 | "1.5h" is accepted |
| UserModel.ExpireAcceptsSpacedUnit | models/User.js:74 | "2 days" is accepted |
| UserModel.ExpireAcceptsUpperCase | models/User.js:74 | the unit's letter case does not matter |
| UserModel.ExpireAcceptsYrs | models/User.js:74 | "3yrs" is accepted |
| UserModel.ExpireRejectsBareNumber | models/User.js:74 | "3600" is rejected |
| UserModel.ExpireRejectsNoNumber | models/User.js:74 | "-1h" and a unit without a number are rejected |
| UserModel.ExpireRejectsSecs | models/User.js:74 | "secs" is not a listed unit |
| UserModel.ExpireRejectsMins | models/User.js:74 | "mins" is not a listed unit |
| UserModel.ExpireRejectsHrs | models/User.js:74 | "hrs" is not a listed unit |
| UserModel.UserErrors | models/User.js:7-51 | a path is reported exactly when its validator fails: required name, email and phone, the email pattern, password minlength 8, the role enum |
| UserModel.UserErrorsEmpty | models/User.js:7-51 | a cast document passes exactly when every path's validator accepts it |
| UserModel.ValidateUser | models/User.js:7-51 | building a user fails exactly when some validator fails, and it reports those paths |
| UserModel.ValidatedIsValid | models/User.js:7-51 | a built user is trimmed, has a lower-cased accepted email and a password of 8 or more, keeps the password given, and is a 'user' unless a role was given |
| UserModel.ValidUserRoundTrip | models/User.js:7-51 | a stored user builds back to itself |
| UserModel.ShortPasswordRejected | models/User.js:32 | a password under 8 characters is reported |
| UserModel.UnlistedRoleRejected | models/User.js:35-39 | a role outside {user, admin} is reported |
| UserModel.BadEmailRejected | models/User.js:17-22 | an email the pattern rejects once lower-cased and trimmed is reported |
| UserModel.UserDoc.SetPassword | models/User.js:54-55 | assigning the password marks it modified exactly when the value differs from the current one, and changes nothing else |
| UserModel.UserDoc.PreSave | models/User.js:54-61 | a modified password is replaced by its hash under the salt; an unmodified document is left alone |
| UserModel.UserDoc.Save | models/User.js:7-61 | the loaded document is validated first, and a rejected save reports exactly the failing paths and changes nothing; an accepted save runs the hook and leaves nothing modified |
| UserModel.SaveErrors | models/User.js:7-40 | a stored document passes the save's validators exactly when its name, email and phone are non-empty, the email matches the pattern, the password has 8 or more characters and the role is listed |
| UserModel.ValidUserSaves | models/User.js:7-40 | a valid stored user with a new password of 8 or more characters passes the save's validators |
| UserModel.SaveTwice | models/User.js:54-61 | two saves of one document: the first stores the hash only when the password is marked modified, and the second keeps what the first stored and changes no other field |
| UserModel.AssignedPasswordMatches | models/User.js:89-91 | a new password assigned and saved is matched afterwards by `matchPassword`, because the pre-save hook stores its hash; assigning the value already held stores it unhashed, and the match compares it with itself; a rejected save stores nothing |
| UserModel.UserDoc.GetSignedJwtToken | models/User.js:64-86 | the payload is exactly id and role, and the lifetime is the normalised one |
| Perfil.ViewHidesPassword | controllers/perfilController.js:19-29 | a reply's user view does not depend on the password |
| Perfil.GetProfile | controllers/perfilController.js:7-38 | 200 with the user view exactly when the user exists, 404 otherwise |
| Perfil.UpdateCheck | controllers/perfilController.js:43-122 | every check passes exactly when the fields are truthy, the raw email is accepted, no other user holds it lower-cased, the trimmed name and phone are non-empty, and the user exists; a failure is a 400, or a 404 for an unknown user |
| Perfil.UpdateProfile | controllers/perfilController.js:43-129 | the update succeeds exactly when every check passes; every refusal writes nothing and carries no data |
| Perfil.UpdateWrites | controllers/perfilController.js:79-111 | a success writes the trimmed name and phone and the trimmed, lower-cased email into that one user's record and replies with its view |
| Perfil.UpdateRequiresFields | controllers/perfilController.js:49-54 | a falsy name, email or phone is a 400 before any other check, and nothing is written |
| Perfil.UpdateChecksRawEmail | controllers/perfilController.js:57-63 | the pattern sees the raw input, so an email with white space anywhere is a 400 |
| Perfil.UpdateRefusesBadEmail | controllers/perfilController.js:57-63 | an email the pattern rejects is a 400 and nothing is written |
| Perfil.UpdateRefusesTakenEmail | controllers/perfilController.js:66-76 | an email another user holds, compared lower-cased, is a 400 and nothing is written |
| Perfil.UpdatedEmailIsLowered | controllers/perfilController.js:82-84 | the stored email is the lower-cased input, which is still accepted |
| Perfil.UpdatedIsValid | controllers/perfilController.js:79-97 | an updated user still satisfies every schema validator |
| Perfil.UpdateKeepsInvariants | controllers/perfilController.js:43-129 | the update keeps emails unique and every stored user valid |
| Perfil.ChangePasswordReply | controllers/perfilController.js:134-189 | 200 exactly when both passwords are given, the new one has 8 or more characters, the user exists, the current password matches and the save's validation accepts the stored user with the new password; 500 exactly when only that validation fails; no reply carries data |
| Perfil.ChangePasswordChecksFirst | controllers/perfilController.js:140-152 | a missing or short password is a 400 whatever the collection holds |
| Perfil.UserStore.ChangePassword | controllers/perfilController.js:134-189 | replies as specified; a success stores the hash of the new password on that user only, or keeps the stored value when the new password equals it; every refusal, the rejected save included, changes nothing |
| Perfil.UserStore.ChangedPasswordMatches | controllers/perfilController.js:155-178 | after a successful change to a different value, a fresh document of the stored user matches the new password; a change to the stored value itself matches only as `compare` of that value against itself |
| Perfil.ChangePasswordOfValidUsers | controllers/perfilController.js:174-187 | while every stored user is valid the save never rejects the change, so no 500 is answered |
| Perfil.ChangePasswordInvalidStored | controllers/perfilController.js:174-187 | a stored user with an empty name makes a change with the right current password a 500 |
| Perfil.PasswordChangeKeepsUniqueEmails | controllers/perfilController.js:175-181 | changing a password keeps emails unique |
| Media.MediaId | controllers/fotosController.js:131-132 | the derived id contains neither '/' nor '.' |
| Media.MediaIdOf | controllers/categoriasController.js:80 | a URL `base/name.ext` with `name` free of '/' and '.' gives `name` |
| Media.DestroyId | controllers/serviciosController.js:153-154 | the destroyed id is the folder followed by the id derived from the URL |
| Media.IfTruthy | controllers/fotosController.js:116-118 | a field enters a payload exactly when it is truthy, and then as given |
| Media.ImageFilter | controllers/fotosController.js:24-30 | an upload is accepted exactly when its MIME type starts with "image/", and refused with "Solo se permiten imágenes" otherwise |
| Media.VideoFilter | controllers/videosController.js:24-30 | an upload is accepted exactly when its MIME type starts with "video/", and refused with "Solo se permiten videos" otherwise |
| Media.FiltersDisjoint | controllers/videosController.js:21-31 | no MIME type passes both filters |
| Media.ImageAdmission | controllers/fotosController.js:21-31 | a file of more than 10 MB is never an admitted image, and an admitted image is not an admissible video |
| Videos.UploadOptions | controllers/videosController.js:63-69 | the caller's options override the defaults key by key, and the other defaults stay |
| Videos.CreateVideoOptions | controllers/videosController.js:132-136 | the options `createVideo` passes give the expected merged options |
| Videos.RetryOutcome | controllers/videosController.js:72-89 | between one and three attempts are made, all but the last timed out (499); a success is the last attempt's video, and a failure is the last attempt's error, not a timeout unless three attempts failed |
| Videos.FirstSuccessReturned | controllers/videosController.js:75-78 | a first success is returned unchanged after one attempt |
| Videos.OtherErrorNotRetried | controllers/videosController.js:82-84 | an error other than 499 is rethrown after one attempt |
| Videos.TimeoutsExhaustAttempts | controllers/videosController.js:72-84 | a host that always times out is tried three times and the timeout is rethrown |
| Videos.UploadVideo | controllers/videosController.js:62-90 | the loop's outcome and attempt count are those of the retry policy, with 1 to 3 attempts and a wait of 1000·k ms after the k-th failure |
| Videos.Thumb | controllers/videosController.js:34-59 | a thumbnail exists exactly when its URL can be built; its id contains neither '/' nor '.' |
| Videos.ThumbnailIdOf | controllers/videosController.js:47-49 | a thumbnail at `base/name.jpg` has id `name` |
| Videos.OldVideoId | controllers/videosController.js:214-226 | the stored `publicId` when truthy; otherwise an id exists exactly when the URL does |
| Videos.OldVideoIdFromUrl | controllers/videosController.js:224-226 | without a `publicId`, a video at `base/name.ext` is destroyed as `galeria/videos/name` |
| Videos.UpdateVideo | controllers/videosController.js:184-275 | 404 for an unknown id; the payload holds the truthy text fields, and the media fields only after a successful upload; a failed upload, or an old video with no id, is a 500 |
| Videos.DeleteVideo | controllers/videosController.js:278-325 | 404 exactly for an unknown id, 500 exactly for a video with no id to destroy, 200 otherwise; a success removes the video, destroys its id first and then, only when it exists and the first destroy succeeded, its `miniaturaPublicId` |
| Fotos.CreateFoto | controllers/fotosController.js:64-101 | 400 exactly without a file, 500 exactly on a failed upload, 201 exactly after an upload; a success adds the photo with the upload's URL and the defaults "Sin título" and "", and keeps every other photo |
| Fotos.ApplyEmpty | controllers/fotosController.js:144-149 | an update without keys leaves a photo as it is |
| Fotos.UpdateFoto | controllers/fotosController.js:104-166 | 404 for an unknown id and nothing changes; the truthy text fields are written, and the URL only after an upload; the old image is destroyed under its derived id; a stored photo without a URL, after an upload, is a 500 and nothing changes |
| Fotos.UpdateWithNothingKeepsFoto | controllers/fotosController.js:116-118 | with no truthy text and no file, the stored photo stays as it is |
| Fotos.DeleteFoto | controllers/fotosController.js:169-204 | 404 for an unknown id; a photo without a URL is a 500 and stays stored; otherwise the photo is removed and its derived id destroyed |
| Fotos.FotoDestroyIdOf | controllers/fotosController.js:180-181 | a photo at `base/name.ext` is destroyed as `galeria/fotos/name` |
| Servicios.OldImageId | controllers/serviciosController.js:152-154 | an id is destroyed exactly when `imagen` is non-empty, under the derived id |
| Servicios.OldImageIdOf | controllers/serviciosController.js:201-203 | an image at `base/name.ext` is destroyed as `servicios/name` |
| Servicios.UpdatePayload | controllers/serviciosController.js:136-163 | the payload holds exactly the truthy name, title and description, each with its given value, and the upload's URL as the image only after an upload |
| Servicios.ServicioTable.Create | controllers/serviciosController.js:65-111 | 400 exactly when the name is taken; 500 exactly on a failed upload; 201 otherwise, the service stored with `imagen` the upload's URL or ""; names stay unique |
| Servicios.ServicioTable.Update | controllers/serviciosController.js:114-187 | 404 before the name clash; the clash excludes the service itself; a failed upload is a 500; 200 exactly when these pass, applying the payload and destroying the old image only after a new upload; names stay unique |
| Servicios.ServicioTable.Delete | controllers/serviciosController.js:190-226 | 404 exactly for an unknown id and 200 otherwise; a success removes the service and destroys its image |
| Servicios.WriteKeepsNamesUnique | controllers/serviciosController.js:126-133 | writing a name no other service holds keeps names unique |
| Categorias.NewCategoria | controllers/categoriasController.js:26-46 | the new category keeps the body's fields and reads a missing or empty image URL as "" |
| Categorias.OldImageId | controllers/categoriasController.js:79-82 | an id is destroyed exactly when `imagenURL` is truthy, under the derived id |
| Categorias.OldImageIdOf | controllers/categoriasController.js:145-148 | an image at `base/name.ext` is destroyed as `categorias/name` |
| Categorias.UpdateCategoria | controllers/categoriasController.js:49-128 | 400 for an invalid id before any lookup, then 404, then 500 on a failed upload, and 200 exactly when these pass; a success sets the name and the description the body gives, keeps an absent one, and sets the image URL only after an upload, destroying the old image then |
| Categorias.UpdateWithoutFileKeepsImage | controllers/categoriasController.js:62-65 | without a file the image URL stays |
| Categorias.DeleteCategoria | controllers/categoriasController.js:131-165 | 400 for an invalid id, 404 for an unknown one; otherwise the category is removed and its image destroyed |
| Localidades.WriteKeepsUniqueNames | controllers/localidadesController.js:64-71 | writing a name no other locality holds keeps names unique |
| Localidades.LocalidadTable.Create | controllers/localidadesController.js:33-56 | 400 when the name is taken, 500 for an empty name, and the table unchanged; otherwise the locality is added; names stay unique |
| Localidades.LocalidadTable.Update | controllers/localidadesController.js:59-90 | the clash is checked first, then an empty name is refused, then an unknown id is not found; updated exactly when these checks pass, replacing exactly the name and the given description of that one locality; names stay unique |
| Localidades.LocalidadTable.Delete | controllers/localidadesController.js:93-108 | 404 for an unknown id and the table unchanged; otherwise the locality is removed |
| Localidades.ClashBeforeExistence | controllers/localidadesController.js:64-81 | a taken name is refused even for an id no locality has |
| Productos.TallasListShape | controllers/productoController.js:48-53 | a string, "" included, becomes a one-element list; a list is kept; another truthy value is wrapped; a falsy value becomes [] |
| Productos.TallasListIdempotent | controllers/productoController.js:48-53 | normalising a normalised list changes nothing |
| Productos.InvalidIds | controllers/productoController.js:61-63 | the reported ids are the entries that name no found size, in order and with repeats |
| Productos.InvalidIdsAppend | controllers/productoController.js:61-63 | the filter works entry by entry |
| Productos.FoundCount | controllers/productoController.js:59-60 | the found count never exceeds the list length, and equals it exactly when every entry names a size and none repeats |
| Productos.CheckTallasIff | controllers/productoController.js:58-68 | the size check passes exactly when every entry names a stored size and no entry repeats |
| Productos.UnknownIdReported | controllers/productoController.js:61-66 | an entry naming no size is refused and reported |
| Productos.RepeatedSizeRefused | controllers/productoController.js:59-66 | a list repeating a valid size is refused with an empty list of invalid ids |
| Productos.CreateProducto | controllers/productoController.js:42-129 | 400 with the invalid ids when the size check fails; 500 on a failed upload; without `localidadId` the save is refused (400 after an upload, 500 otherwise); a success stores the normalised sizes and the uploaded URL, else the body's or "" |
| Productos.GetProductos | controllers/productoController.js:10-39 | 404 exactly when there are no products; otherwise all of them |
| Productos.DeleteProducto | controllers/productoController.js:132-166 | 404 for an unknown id; otherwise the product is removed, and an id is destroyed exactly when `imagenURL` is non-empty |
| Productos.ProductoImageIdOf | controllers/productoController.js:144-147 | an image at `base/name.ext` is destroyed as `productos/name` |
| JsText.TrimIdempotent | models/User.js:11 | trimming twice is trimming once |
| JsText.TrimIsUnpadded | models/User.js:11 | a trimmed string neither starts nor ends with white space |
| JsText.AsciiLowerIdempotent | models/User.js:21 | lower-casing twice is lower-casing once |
| JsText.JoinSplit | middlewares/autoDeleteEvents.js:11 | joining the parts of a split gives back the string |
| JsText.SplitJoin | middlewares/autoDeleteEvents.js:11 | splitting joined parts that hold no separator gives back the parts |
| JsText.ParseIntDecimal | middlewares/autoDeleteEvents.js:12 | `parseInt` of decimal digits followed by a non-digit is their decimal value |
| JsText.ParseIntNaN | middlewares/autoDeleteEvents.js:12 | `parseInt` with no digit where one is expected is NaN |

## Left out

- Cloudinary upload, destroy and URL building are outcome inputs, and so are multer's disk and memory storage, `fs` temp-file cleanup and the streamifier callbacks. Errors thrown by `destroy`, which the controllers catch and log, are not modelled, except that `deleteVideo` skips the thumbnail when the first destroy throws.
- The database driver is a map. Its cast errors on malformed ids (the 500 of a CastError) are left out, and so is the strict-mode dropping of keys a schema does not declare.
- The Eventos schema declares neither `horaFin` nor `fechaEliminacion` and registers no hooks. The model computes the purge time but not its persistence.
- The Video schema declares only `url`, `titulo` and `descripcion`, so a stored video never has a `publicId` and the URL fallback is what applies. The model keeps the optional fields, as the controller reads them.
- Eventos.CreateEvento: the outcome of the save is not modelled; the status is 201.
- Eventos.UpdateEvento: the outcome of `findByIdAndUpdate` is reduced to whether the id exists.
- Daylight-saving changes are not modelled, because the time-zone offset is one fixed input.
- String lengths count Unicode code points, not UTF-16 code units, because Dafny characters are scalar values. Lower-casing covers ASCII letters only.
- Categorias.NewCategoria: the Categoria schema declares `_id: String` with no default, so the driver refuses the save of `createCategoria`. The model stops at the document handed to the save.
- Productos.CreateProducto: the `$in` lookup's casting of non-string entries is not modelled; such entries match no size. Casting of list elements on save is also left out.
- Productos: `updateProducto` is routed but never exported, so there is nothing to model.
- `getVideos`, `getFotos`, `getServicios`, `getCategorias`, `getLocalidades`, `getEventos` and the `getById` handlers only pass the driver's result on.
- The tallas and nosotros controllers and the route tables are pure pass-through CRUD.
- Only the option merge and the upload retry of `createVideo` are modelled. Its save is the driver's.
- Mongoose reports validation errors in the order of the update's keys. The model reports the set of failing paths.
- Perfil.UpdateProfile: `runValidators` checks only the three updated paths, so the other stored paths are not validated there; the model applies the `required` validators of the trimmed name and phone, the only ones the earlier checks leave open.
- Perfil.UserStore.ChangePassword: a failure of the driver or of bcrypt, which the catch also answers with 500, is not modelled; only the save's validation error is.
- `findByIdAndUpdate` drops a key whose value is `undefined`, and the update models that key as absent.
- bcrypt, `jwt.sign` and `jwt.verify` are parameters. The signature and the `exp` check are the library's.
- The request clock is an integer parameter.
- The checks made before each write can race with other requests. The model is sequential.
- The sample dates lie in January 1970, so that the date arithmetic in the examples stays small.
- Console logging is left out.
- Localidades.LocalidadTable.Create, Localidades.LocalidadTable.Update: `nombre` is taken to be present in the body. Without it the name lookup receives `{ nombre: undefined }`, whose reading by the driver is not modelled, and an update would then write only the description.
- Servicios.ServicioTable.Create, Servicios.ServicioTable.Update: `nombre` is taken to be present in the body, so an absent and an empty name are the same update payload. The name lookup with `{ nombre: undefined }` is not modelled.
- Request bodies go through `express.json()`, so a field can arrive as a number, a boolean, an array or an object. Apart from `tallasDisponibles`, every body field is modelled as a string or absent; the lines below name what a non-string value does in the source.
- Perfil.ChangePasswordReply, Perfil.ChangePasswordChecksFirst: hold for string fields only. A numeric `newPassword` has no `length`, so `length < 8` is false and the 400 is skipped; the request goes on to the lookup and the save.
- Perfil.UpdateProfile, Perfil.UpdateCheck: hold for string fields only. A truthy non-string `name`, `email` or `phone` throws at `trim()` and is answered with 500.
- AutoDelete.CalcularFechaEliminacionUpdate, AutoDelete.EventDoc.CalcularFechaEliminacion, Eventos.UpdateEvento: `horaFin` is a string or absent. A truthy non-string `horaFin` throws at `split` and the write fails.
- Fotos.UpdateFoto, Videos.UpdateVideo, Servicios.UpdatePayload, Categorias.UpdateCategoria, Localidades.LocalidadTable.Update: a truthy non-string text field is written as it arrives, and the schema's cast decides what is stored; the model takes text fields to be strings.
- Perfil: the message texts the replies carry are not modelled; replies carry the message as an enumerated value.
