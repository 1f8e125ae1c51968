# VeraNode backend core in Dafny

VeraNode is a registry for machine-learning models with zero-knowledge proofs
of inference. Users register and log in with a JWT or an API key. They upload
ONNX, PyTorch or TensorFlow models, which are stored with a SHA-256 commitment
and, for ONNX, a Merkle root over 1 MiB chunks of the file. They ask for proofs
that a model produced an output on an input. A Celery worker produces these
proofs with ezkl, reusing cached setup artifacts per model, and later sweeps
proofs older than a cut-off.

This project models that backend core and proves what it promises:

- `Common`, `Store`: Python-level helpers: `int()` parsing, decimal printing,
  `str.split`/`strip`, ASCII lower-casing, `pathlib` suffixes. The record types
  and the four tables as classes with `rows`/`nextId` and their invariants. A
  `Disk` class that holds the sets of existing files and directories, with the
  `mkdir`, write, `os.remove`, `rmdir`, `shutil.move` and `shutil.rmtree`
  operations the services perform.
- `Config`, `Security`, `UserSchema`, `ModelSchema`: the settings validators,
  token claims and lifetimes, password and API-key hashing, and the request
  schemas with their validators.
- `Crypto`: the Merkle tree class (build, proof, verification) and the
  chunked weights root.
- `Deps`, `AuthService`, `AuthEndpoint`: resolving the caller from a bearer
  token or an API key, role checks, registration, login and API-key issue.
- `ModelValidator`, `ModelRegistry`, `ModelsEndpoint`: file-type rules,
  registration with its clean-up paths, visibility, listing, deletion and the
  `/models` routes.
- `JsonValue`, `ZkmlProof`, `ProofCache`, `ProofService`,
  `VerificationEndpoint`, `Worker`: the proof pipeline. This covers job creation
  with the temporary-directory move, the ezkl steps with the artifact cache,
  verification, the proof task with its retries and failures, and the cleanup
  task.

The model abstracts the following into parameters:

- Hash functions, bcrypt, JWT encoding and decoding, `json.dumps`.
- The ezkl steps (each as an optional error).
- Random tokens and names.
- The clock, in whole minutes.
- Enum `.value` texts.
- Database faults that the worker retries on.

## Model

| member | source | states |
|---|---|---|
| Common.IntStringRoundTrip | backend/app/api/deps.py:37 | `int(str(n)) == n` for every integer, so a numeric `sub` claim written as text is read back as the same id |
| Common.NatToStringDigits | backend/app/core/security.py:41-45 | `str(n)` of a natural number is a non-empty run of ASCII digits whose decimal value is `n` |
| Common.LengthErrors | backend/app/schemas/user.py:11 | a `min_length`/`max_length` field constraint reports an error exactly when the length is outside the bounds |
| Common.SplitJoin | backend/app/core/config.py:35 | joining the pieces of `s.split(",")` with commas gives back `s` |
| Common.JoinSplit | backend/app/core/config.py:35 | splitting a comma-join of comma-free pieces gives back those pieces |
| Common.SplitCount | backend/app/core/config.py:35 | `s.split(",")` has one piece more than `s` has commas |
| Common.LastIndexOf | backend/app/utils/model_validator.py:23 | the index of the last occurrence of a character, or -1 when it does not occur |
| Config.AssembleCorsOrigins | backend/app/core/config.py:31-36 | a list is kept as is; a text yields one stripped entry per comma-separated piece, in order |
| Config.CorsOriginCount | backend/app/core/config.py:35 | the origins parsed from a text number one more than its commas |
| Config.CorsOriginsClean | backend/app/core/config.py:35 | every parsed origin is comma-free and has no surrounding whitespace |
| Config.CorsRoundTrip | backend/app/core/config.py:31-36 | parsing the comma-join of clean, comma-free origins gives back exactly those origins |
| Config.AssembleDbConnection | backend/app/core/config.py:46-58 | an explicit URL is kept; otherwise a `postgresql+asyncpg://` URL is built from the parts |
| Security.PasswordRoundTrip | backend/app/core/security.py:18-25 | for a sound hasher, a password verifies against its own hash |
| Security.AccessLifetime | backend/app/core/security.py:34-39 | no delta or a zero delta gives the configured 24-hour lifetime, any other delta is used as given |
| Security.BaseClaims | backend/app/core/security.py:41-45 | the claims `exp`, `sub` and `iat` and nothing else |
| Security.AccessClaims | backend/app/core/security.py:28-56 | the claim keys are `exp`, `sub`, `iat` plus the additional ones; additional claims win over the base claims; the base claims take the expiry, the subject as text and the issue time |
| Security.RefreshClaims | backend/app/core/security.py:59-77 | exactly `exp` (seven days on), `sub`, `iat` and `type = "refresh"` |
| Security.DecodeToken | backend/app/core/security.py:80-94 | a token that fails to decode is a 401 "Could not validate credentials"; otherwise its claims |
| Security.AccessTokenRoundTrip | backend/app/core/security.py:28-94 | decoding an issued access token gives back exactly the claims it was built from |
| Security.GenerateApiKey | backend/app/core/security.py:97-99 | the key is `vn_` followed by the random token |
| Security.ApiKeysDistinct | backend/app/core/security.py:97-99 | different tokens give different keys |
| Security.ApiKeyRoundTrip | backend/app/core/security.py:97-104 | a key verifies against its own hash and, for a binding hasher, no other key does |
| UserSchema.ValidatePassword | backend/app/schemas/user.py:20-39 | accepted iff at least 8 characters, at most 72 UTF-8 bytes, with a digit, an upper-case and a lower-case letter; each failure gives the message of the first check it fails, in the source's order |
| UserSchema.Utf8LengthBounds | backend/app/schemas/user.py:28-29 | the UTF-8 length lies between the character count and four times it |
| UserSchema.LongPasswordRejected | backend/app/schemas/user.py:28-30 | more than 72 characters is always over the byte limit |
| UserSchema.WidePasswordRejected | backend/app/schemas/user.py:17-30 | a password of 25 to 100 characters of three-byte characters passes the field's length limit and is still refused as too many bytes |
| UserSchema.AsciiPasswordBytes | backend/app/schemas/user.py:28-30 | for ASCII passwords the byte check is exactly "at most 72 characters" |
| UserSchema.PasswordErrors | backend/app/schemas/user.py:17-39 | the password field has no error iff it meets its length bounds and the strength validator |
| UserSchema.ValidateUserCreate | backend/app/schemas/user.py:8-39 | accepted iff `EmailStr` accepts the email, the username is 3 to 100 characters and the password passes; the stored email is the normalised address `EmailStr` returns; the role defaults to `USER` |
| UserSchema.AcceptedPasswordFitsBcrypt | backend/app/schemas/user.py:17-39 | every accepted registration carries a password of 8 to 72 characters and at most 72 bytes, within bcrypt's limit |
| ModelSchema.VersionFromRuns | backend/app/schemas/model.py:11 | any three digit runs joined by dots match the version pattern |
| ModelSchema.VersionIsThreeRuns | backend/app/schemas/model.py:11 | a matching version is exactly its three dot-separated pieces |
| ModelSchema.DefaultVersionMatches | backend/app/schemas/model.py:11 | the default `1.0.0` matches the pattern |
| ModelSchema.FourPartsDoNotMatch | backend/app/schemas/model.py:11 | four dot-separated digit runs never match |
| ModelSchema.ValidateModelCreate | backend/app/schemas/model.py:7-19 | accepted iff the name is 1 to 255 characters and the version, if given, matches; the version defaults to `1.0.0`, `is_public` to false |
| Crypto.NextLayer | backend/app/utils/crypto.py:91-103 | the parent layer has half as many nodes, rounded up |
| Crypto.LayersShape | backend/app/utils/crypto.py:76-105 | the layers start at the given layer, each is the parent layer of the one before, and only the last has a single node |
| Crypto.TreeShape | backend/app/utils/crypto.py:76-105 | no leaves: no layers and the root is the hash of the empty text; otherwise the first layer is the leaf hashes and the root is the single node of the last layer |
| Crypto.StepReachesParent | backend/app/utils/crypto.py:127-142 | combining a node with its proof step gives its parent; an odd last node is paired with itself on the right |
| Crypto.PathFoldsToRoot | backend/app/utils/crypto.py:111-169 | folding a node's proof path, one step per level, ends at the root |
| Crypto.ProofRoundTrip | backend/app/utils/crypto.py:111-169 | for every leaf, verifying its hash against the proof `get_proof` builds yields the tree's root |
| Crypto.MerkleTree.constructor | backend/app/utils/crypto.py:76-105 | builds the layers and root of the given leaves |
| Crypto.MerkleTree.HashPairs | backend/app/utils/crypto.py:91-103 | the loop that pairs the nodes, padding an odd layer with its last node, computes the parent layer |
| Crypto.MerkleTree.GetProof | backend/app/utils/crypto.py:111-144 | an index outside the leaves is refused with "Invalid leaf index"; otherwise the sibling path, one step per level, which folds to the root |
| Crypto.MerkleTree.VerifyProof | backend/app/utils/crypto.py:146-169 | valid iff folding the proof into the leaf hash reaches the root; an empty proof is valid iff the leaf hash is the root |
| Crypto.ChunksCoverFile | backend/app/utils/crypto.py:186-191 | the chunks read from the file are non-empty, all of the chunk size except perhaps the last, and concatenate to the whole file |
| Crypto.EmptyWeightsRoot | backend/app/utils/crypto.py:193-194 | an empty file has as root the hash of no bytes |
| Crypto.DigestChunks | backend/app/utils/crypto.py:186-191 | the read loop hashes exactly the file's chunks in order |
| Crypto.MerkleRootFromWeights | backend/app/utils/crypto.py:172-198 | the root of the Merkle tree over the chunk hashes, or the hash of no bytes for an empty file |
| Deps.SubjectId | backend/app/api/deps.py:31-37 | the user id read from the `sub` claim with `int()` |
| Deps.GetCurrentUser | backend/app/api/deps.py:19-44 | no token: 401 "Not authenticated"; undecodable token or no `sub`: 401 credentials error; a non-numeric `sub`: 500; otherwise the user with that id, or 401 |
| Deps.IssuedTokenIdentifiesUser | backend/app/api/deps.py:19-44 | a token issued for a user's id resolves to that user |
| Deps.RefreshTokenActsAsAccessToken | backend/app/api/deps.py:30-44 | `get_current_user` never reads the `type` claim, so a refresh token for a user's id resolves to that user, just as an access token issued at the same time does |
| Deps.GetCurrentActiveUser | backend/app/api/deps.py:47-56 | an inactive user is a 403 "Inactive user", an active one passes, errors pass through |
| Deps.ApiKeyLookup | backend/app/api/deps.py:59-82 | no key or an empty key: no user; the first user with a key hash the key verifies against: that user if active, 403 if inactive; none: no user |
| Deps.GetCurrentUserWithApiKey | backend/app/api/deps.py:59-82 | the loop over users computes `ApiKeyLookup` |
| Deps.IssuedKeyIdentifiesUser | backend/app/api/deps.py:59-82 | a user's own issued key resolves to that user, or is refused with 403 when the user is inactive |
| Deps.GetCurrentUserFlexible | backend/app/api/deps.py:85-99 | as written: a failing JWT resolution decides first; with a valid JWT, an API key whose first matching row is inactive still gives 403; otherwise the result is the JWT user, whatever key is sent |
| Deps.ApiKeyAloneIsRefused | backend/app/api/deps.py:85-99 | a request with a valid API key and no bearer token is refused with 401 as written, and accepted by the intended resolver |
| Deps.FlexibleIntended | backend/app/api/deps.py:85-99 | corrected: a bearer token decides when present; otherwise the API-key user, and 401 when there is none |
| Deps.IntendedAcceptsOnlyActiveRows | backend/app/api/deps.py:85-99 | the corrected resolver only ever returns an active user of the table |
| Deps.RequireRole | backend/app/api/deps.py:103-118 | admin always passes; another role passes iff it is the required one, else 403 naming the required role |
| Deps.AdminPassesEveryCheck | backend/app/api/deps.py:103-124 | whoever passes the admin check passes every role check |
| Deps.TwoRolesMeanAdmin | backend/app/api/deps.py:103-124 | a user who passes two different role checks is an admin |
| AuthService.NewUser | backend/app/services/auth_service.py:47-54 | the new row keeps email, username and role, stores the password hash, is active, unverified and has no API key |
| AuthService.RegisterUser | backend/app/services/auth_service.py:22-67 | a taken email is a 400, then a taken username; a hashing `ValueError` is a 400 with its message; otherwise one row is appended with the next id, and nothing changes on failure |
| AuthService.AuthenticateUser | backend/app/services/auth_service.py:70-86 | the user with that email whose hash the password verifies against, and none iff no such user |
| AuthService.SecondSpellingIsTaken | backend/app/services/auth_service.py:22-33 | after one registration, a second one whose email normalises to the same address finds the email taken |
| AuthService.UniqueEmailRow | backend/app/services/auth_service.py:70-86 | with unique emails, the row with a user's email is that user |
| AuthService.RegisteredUserAuthenticates | backend/app/services/auth_service.py:22-86 | after registration the new table stays valid and the new user logs in with the registered password |
| AuthService.AppendKeepsUsersValid | backend/app/services/auth_service.py:47-54 | a row with the next id and an unused email and username keeps the table's invariants |
| AuthService.GenerateUserApiKey | backend/app/services/auth_service.py:88-108 | an unknown user is a 404; otherwise the user's row, and only that row, gets the hash of the new `vn_` key |
| AuthService.OnlyNewestKeyVerifies | backend/app/services/auth_service.py:88-108 | after a key is issued it verifies and, for a binding hasher, no other key does, so earlier keys are revoked |
| AuthEndpoint.LoginClaims | backend/app/api/v1/endpoints/auth.py:51-54 | the extra claims are exactly `role` and `email` |
| AuthEndpoint.Login | backend/app/api/v1/endpoints/auth.py:30-61 | bad credentials: 401; an inactive account: 403; otherwise an access token with the login claims and a refresh token, type `bearer` |
| AuthEndpoint.LoginTokenAuthenticates | backend/app/api/v1/endpoints/auth.py:30-61 | the access token of a successful login resolves back to the same user and expires 24 hours later |
| AuthEndpoint.LoginTokenIdentifiesUser | backend/app/api/v1/endpoints/auth.py:51-54 | the login access token of an active user resolves to that user |
| AuthEndpoint.LoginTokenExpiry | backend/app/api/v1/endpoints/auth.py:51-54 | the login access token expires after the configured lifetime |
| AuthEndpoint.LoginSucceeds | backend/app/api/v1/endpoints/auth.py:30-61 | an active user with the right password gets exactly the two tokens |
| AuthEndpoint.IssueApiKey | backend/app/api/v1/endpoints/auth.py:72-83 | the key with the fixed warning message, its hash stored on the caller's row only |
| AuthEndpoint.Logout | backend/app/api/v1/endpoints/auth.py:86-92 | an authenticated caller gets the fixed logout message; otherwise the authentication error |
| ModelValidator.TrimTrailingSlashes | backend/app/utils/model_validator.py:23 | trailing separators are dropped before taking the final component |
| ModelValidator.Name | backend/app/utils/model_validator.py:23 | the final path component has no separator |
| ModelValidator.GetFileExtension | backend/app/utils/model_validator.py:20-23 | empty iff the name has no suffix; otherwise the lower-cased suffix without its dot, with no dot or separator in it |
| ModelValidator.ExtensionOfDottedName | backend/app/utils/model_validator.py:20-23 | `stem.e` has extension `e` lower-cased |
| ModelValidator.NoDotNoExtension | backend/app/utils/model_validator.py:20-23 | a final component without a dot has no extension |
| ModelValidator.ValidateFileSize | backend/app/utils/model_validator.py:25-35 | valid iff 0 < size <= 5 GiB; an empty file and an oversized one each get their message |
| ModelValidator.ValidateModelFile | backend/app/utils/model_validator.py:54-83 | a size failure short-circuits; ONNX takes the ONNX checker's verdict; PyTorch needs `.pt`/`.pth`, TensorFlow `.h5`/`.pb`/none; any other type is unsupported |
| ModelValidator.PyTorchMatchesExtension | backend/app/utils/model_validator.py:70-74 | a PyTorch file is valid iff its size is in range and its extension is `pt` or `pth` |
| ModelValidator.TensorFlowMatchesExtension | backend/app/utils/model_validator.py:76-80 | a TensorFlow file is valid iff its size is in range and its extension is `h5`, `pb` or empty |
| ModelValidator.UnknownTypeRejected | backend/app/utils/model_validator.py:82-83 | a type other than the three is never valid |
| ModelRegistry.PreSaveCheck | backend/app/services/model_registry_service.py:57-82 | a name the owner already uses is a 400, then an extension not allowed for the type is a 400; nothing else fails |
| ModelRegistry.PreSaveGate | backend/app/services/model_registry_service.py:70-82 | past the extension check, the type is one of the three and the file has an extension |
| ModelRegistry.StoredFileKeepsExtension | backend/app/services/model_registry_service.py:70-108 | for a file past the extension check, the validator's verdict on the stored path depends only on the size and the type's extensions |
| ModelRegistry.PostSaveCheck | backend/app/services/model_registry_service.py:95-144 | the validator's message as a 400, then a hashing fault as a 500, then a content hash already registered by anyone as a 400 |
| ModelRegistry.SaveUploadedFile | backend/app/services/model_registry_service.py:26-47 | the model directory is created and the file written under its uploaded name; a fault is a 500 that leaves the directory unless `mkdir` failed, and the partial file if the write failed after opening |
| ModelRegistry.SaveThenRemoveRestores | backend/app/services/model_registry_service.py:26-47 | a save into a fresh model directory followed by the file removal of `delete_model` leaves the disk as it was, the directory included |
| ModelRegistry.RegisterModel | backend/app/services/model_registry_service.py:49-164 | each failure path returns its error and leaves the table unchanged; a save fault leaves on disk what the save wrote, with no clean-up; a post-save failure removes the stored file; success appends one row with the next id, the content hash and, for ONNX only, the weights root, keeping names unique per owner and hashes unique |
| ModelRegistry.StoreModel | backend/app/services/model_registry_service.py:84-164 | the file is stored (a save fault leaves the save's directory and partial file), then the post-save checks and the new row follow, with the same guarantees |
| ModelRegistry.FinishRegistration | backend/app/services/model_registry_service.py:95-164 | a post-save failure removes the stored file and leaves the table as it was; otherwise the new row |
| ModelRegistry.AddRecord | backend/app/services/model_registry_service.py:110-164 | appends the new record, with the Merkle root for ONNX models only, and keeps the table's rules |
| ModelRegistry.AppendKeepsRegistryValid | backend/app/services/model_registry_service.py:57-144 | a row with the next id, a free name and an unseen hash keeps ids, order and both uniqueness rules |
| ModelRegistry.GetModelById | backend/app/services/model_registry_service.py:166-189 | no row: none; a private model seen by anyone but its owner: 403; otherwise the model with that id |
| ModelRegistry.PrivateModelOwnerOnly | backend/app/services/model_registry_service.py:181-187 | the owner always gets the model; a stranger, administrators included, never gets a private one |
| ModelRegistry.Matching | backend/app/services/model_registry_service.py:205-219 | exactly the rows that meet the visibility rule and the truthy owner and type filters |
| ModelRegistry.ListModels | backend/app/services/model_registry_service.py:191-232 | the total counts all matching rows; the page is exactly the matching rows from position `skip` counted from the newest, `limit` of them or as many as remain, newest first |
| ModelRegistry.FilterKeepsOrder | backend/app/services/model_registry_service.py:227 | filtering a table ordered by creation time keeps that order |
| ModelRegistry.ListingComplete | backend/app/services/model_registry_service.py:191-232 | a first page as long as the total holds exactly the matching models; an anonymous caller sees only public ones |
| ModelRegistry.DeleteModel | backend/app/services/model_registry_service.py:234-279 | unknown id: 404; neither owner nor admin: 403, and nothing changes; otherwise exactly that row goes; the file is removed and its directory too if it is left empty, except when `os.remove` raises: then the disk is unchanged and the row still goes |
| ModelRegistry.RemoveStoredFile | backend/app/services/model_registry_service.py:260-273 | the file is removed; the parent directory goes only if the file existed and the directory is then empty; a raising `os.remove` is swallowed and removes nothing |
| ModelRegistry.RemoveKeepsRegistryValid | backend/app/services/model_registry_service.py:275-277 | dropping one row keeps the table's rules and leaves exactly the rows with other ids |
| ModelsEndpoint.PageNumber | backend/app/api/v1/endpoints/models.py:67 | the page `skip // limit + 1` is the one whose range holds `skip`, and is at least 1 |
| ModelsEndpoint.ListModelsRoute | backend/app/api/v1/endpoints/models.py:46-74 | bounds `skip >= 0`, `1 <= limit <= 100` or a 422; the page, total, page number and page size of the service listing |
| ModelsEndpoint.MyModelsRoute | backend/app/api/v1/endpoints/models.py:77-100 | the same listing filtered to the caller as owner |
| ModelsEndpoint.MyModelsAreTheCallers | backend/app/api/v1/endpoints/models.py:77-100 | for a caller with a non-zero id, the total counts exactly the caller's models, private ones included, and the page holds no one else's |
| ModelsEndpoint.PagesFollowEachOther | backend/app/api/v1/endpoints/models.py:46-74 | page `n` is reported at `skip = (n-1)*limit`, and two consecutive pages together are the double-size page |
| ModelsEndpoint.GetModelRoute | backend/app/api/v1/endpoints/models.py:103-122 | no row: 404; a private model of someone else: 403; otherwise the model |
| ModelsEndpoint.GetCommitmentRoute | backend/app/api/v1/endpoints/models.py:125-148 | the same errors as fetching the model; otherwise its id, content hash and Merkle root |
| ModelsEndpoint.CommitmentOfRegisteredModel | backend/app/api/v1/endpoints/models.py:125-148 | the commitment of a registered ONNX model is the hash of its bytes and the root over its 1 MiB chunks |
| ModelsEndpoint.RegisterRoute | backend/app/api/v1/endpoints/models.py:14-43 | an invalid form is a 500 before the service runs; otherwise `register_model` for the caller |
| ModelsEndpoint.DeleteRoute | backend/app/api/v1/endpoints/models.py:151-164 | `delete_model` for the caller; exactly the model with that id goes; its stored file goes and then its directory if that leaves it empty, unless the removal fails, when the disk is unchanged; a refusal changes neither the table nor the disk |
| JsonValue.Lookup | backend/app/services/zkml_proof_service.py:41-46 | a key's value in an object, or none iff no entry has that key |
| JsonValue.SortEntriesSorted | backend/app/services/zkml_proof_service.py:268-272 | sorting an object's entries with unique keys orders them by key |
| JsonValue.SortedWithSameEntries | backend/app/services/zkml_proof_service.py:268-272 | two key-sorted entry lists with the same entries are equal |
| JsonValue.SameEntriesNormalizeAlike | backend/app/services/zkml_proof_service.py:268-272 | objects with the same entries in any order serialise alike under `sort_keys=True` |
| ZkmlProof.PrepareProofDirectory | backend/app/services/zkml_proof_service.py:27-32 | creates `proofs/<name>` and nothing else |
| ZkmlProof.EzklInput | backend/app/services/zkml_proof_service.py:41-46 | `input_data` (default `[]`) first, then `output_data` only when the input has it |
| ZkmlProof.EzklInputIdempotent | backend/app/services/zkml_proof_service.py:41-46 | re-wrapping an already wrapped input changes nothing |
| ZkmlProof.SaveInputData | backend/app/services/zkml_proof_service.py:34-51 | writes `input.json` in the job's directory with the wrapped input |
| ZkmlProof.ConvertSettles | backend/app/services/zkml_proof_service.py:59-86 | after conversion no string that reads as a number or boolean is left at any depth |
| ZkmlProof.ConvertIdempotent | backend/app/services/zkml_proof_service.py:59-86 | converting twice is converting once |
| ZkmlProof.SettledUnchanged | backend/app/services/zkml_proof_service.py:59-86 | a settled value is left as it is |
| ZkmlProof.ConvertKeepsShape | backend/app/services/zkml_proof_service.py:81-84 | lists stay lists of the same length, objects keep their keys in order |
| ZkmlProof.InputHashIgnoresKeyOrder | backend/app/services/zkml_proof_service.py:268-272 | the input hash of an object does not depend on the order of its keys |
| ZkmlProof.CompleteIffArtifacts | backend/app/services/proof_cache_service.py:52-62 | a cache directory counts as complete iff all five artifacts exist in it |
| ZkmlProof.WrittenBefore | backend/app/services/zkml_proof_service.py:108-155 | the artifacts the steps before a given step have written: never a key, and the settings once the first step is done |
| ZkmlProof.SetupModel | backend/app/services/zkml_proof_service.py:95-167 | a failing step is a 500 "EZKL setup failed: …" that leaves the artifacts of the earlier steps; otherwise the five artifacts exist in the job's directory |
| ZkmlProof.FailedSetupLeavesIncomplete | backend/app/services/zkml_proof_service.py:108-167 | a failed setup never completes a directory that lacked the proving key |
| ZkmlProof.CopyCachedArtifacts | backend/app/services/zkml_proof_service.py:188-205 | copying from a complete cache adds the five artifacts to the job's directory |
| ZkmlProof.ProvideArtifacts | backend/app/services/zkml_proof_service.py:180-215 | setup runs iff the cache is not complete; without an error the job's artifacts are complete, and a fresh cache filled without a fault is complete |
| ZkmlProof.GenerateProof | backend/app/services/zkml_proof_service.py:169-237 | setup, witness and proof errors each end as "Proof generation failed: …" in that order; success returns the proof and witness paths, which exist, and never removes a file |
| ZkmlProof.VerifyProof | backend/app/services/zkml_proof_service.py:239-266 | the verifier's answer passes through; a raised error becomes "Proof verification failed: …" |
| ProofCache.GetModelCacheKey | backend/app/services/proof_cache_service.py:11-15 | the first 16 characters of the hash of `model_hash + "_" + input_hash` |
| ProofCache.CacheKeyTextUnambiguous | backend/app/services/proof_cache_service.py:11-15 | with underscore-free model hashes, the hashed text determines both hashes |
| ProofCache.CacheKeyAmbiguousWithUnderscore | backend/app/services/proof_cache_service.py:11-15 | with underscores allowed, two different pairs share a key |
| ProofCache.GetCacheDir | backend/app/services/proof_cache_service.py:17-22 | creates the cache root and returns it |
| ProofCache.GetCachedArtifacts | backend/app/services/proof_cache_service.py:52-62 | the model's cache directory iff all five artifacts are in it |
| ProofCache.CacheSetupArtifacts | backend/app/services/proof_cache_service.py:24-50 | an existing cache directory is left alone; otherwise it is created and the artifacts copied until the first fault; the result is `CacheAfter` |
| ProofCache.CopyArtifacts | backend/app/services/proof_cache_service.py:47-50 | the loop copies each existing artifact in order and stops at the first failing copy |
| ProofCache.CopyOne | backend/app/services/proof_cache_service.py:47-50 | one artifact copied if it exists; a fault on it stops the loop |
| ProofCache.CacheIdempotent | backend/app/services/proof_cache_service.py:33-34 | caching a second time changes nothing, whatever faults happen |
| ProofCache.PartialCacheStaysPartial | backend/app/services/proof_cache_service.py:33-34 | an incomplete cache directory is never filled in again |
| ProofCache.FreshCacheCompletes | backend/app/services/proof_cache_service.py:24-50 | caching a complete job directory into a fresh cache without faults completes it |
| ProofCache.FailedCopyLeavesCachePartial | backend/app/services/proof_cache_service.py:36-50 | a failing copy leaves the new cache directory in place and incomplete |
| ProofService.ProofJobGate | backend/app/services/proof_service.py:34-52 | unknown model: 404; private and not owned: 403; not ONNX: 400; otherwise the model |
| ProofService.GateAgreesWithModelAccess | backend/app/services/proof_service.py:34-45 | the gate grants exactly what `get_model_by_id` grants and refuses a private model exactly when it does |
| ProofService.NewJob | backend/app/services/proof_service.py:71-81 | a pending job with the input hash and path and no results yet |
| ProofService.CreateProofJob | backend/app/services/proof_service.py:21-103 | a gate failure changes nothing; otherwise one row is appended; if the move into `proofs/<id>` fails the row keeps the temporary path and no task id and the result is a 500, else the row has the final path, and then the Celery task id, or no task id and a 500 when queuing the task raises; the disk ends exactly as `StagedInput` describes |
| ProofService.StageInput | backend/app/services/proof_service.py:63-93 | moved iff `proofs/<id>` is not a plain file and is not the temporary directory; the new disk is exactly `StagedInput`: a plain file at `proofs/<id>` leaves the old disk plus the temporary directory and its `input.json`; `proofs/<id>` equal to the temporary directory removes that tree; otherwise an existing `proofs/<id>` tree is removed and the temporary tree, with the input, lands in `proofs/<id>` |
| ProofService.MoveToJobDir | backend/app/services/proof_service.py:83-88 | moved iff `proofs/<id>` is not a plain file and is not the temporary directory; the new disk is exactly `MovedToJobDir`: unchanged for a plain file, otherwise the `rmtree` of an existing `proofs/<id>` and, unless that was the temporary directory, the move of the temporary tree |
| ProofService.StagedMove | backend/app/services/proof_service.py:64-88 | moving after the temporary directory and its input were made gives exactly the `StagedInput` state |
| ProofService.FreshStagingAddsOnlyInput | backend/app/services/proof_service.py:63-88 | with a fresh temporary directory and nothing at `proofs/<id>`, staging adds exactly `proofs/<id>` and its `input.json` |
| ProofService.StagingKeepsOtherFiles | backend/app/services/proof_service.py:63-88 | no file outside the two directories is lost, and when `proofs/<id>` is a plain file the input stays in the temporary directory |
| ProofService.TempTreeOutsideJobDir | backend/app/services/proof_service.py:84-88 | everything below the temporary directory lies outside `proofs/<id>`, so the `rmtree` never touches what is about to be moved |
| ProofService.GetProofJobStatus | backend/app/services/proof_service.py:105-130 | unknown job: 404; someone else's: 403; otherwise the job |
| ProofService.JobVisibleToOwnerOnly | backend/app/services/proof_service.py:105-130 | every job is visible to its owner and refused with 403 to everyone else |
| ProofService.VerifyProof | backend/app/services/proof_service.py:132-196 | unknown job: 404; not completed: 400 with the status; cleaned paths: 500; a verifier error: 500 "Verification failed: …"; otherwise one verification row with the verifier's answer is appended |
| ProofService.OwnJobs | backend/app/services/proof_service.py:207-219 | exactly the caller's jobs |
| ProofService.ListUserProofJobs | backend/app/services/proof_service.py:198-222 | the total counts the caller's jobs; the page is exactly the caller's jobs from position `skip` counted from the newest, `limit` of them or as many as remain |
| ProofService.ListingHoldsAllOwnJobs | backend/app/services/proof_service.py:198-222 | a first page as long as the total holds exactly the caller's jobs |
| VerificationEndpoint.ActiveCount | backend/app/api/v1/endpoints/verification.py:30-37 | counts the caller's pending and processing jobs; zero iff there are none |
| VerificationEndpoint.ActiveCountAppend | backend/app/api/v1/endpoints/verification.py:30-37 | appending a job raises the count by one iff it is an active job of the caller |
| VerificationEndpoint.GenerateProofRoute | backend/app/api/v1/endpoints/verification.py:22-50 | ten or more active jobs: 429 with nothing changed; otherwise `create_proof_job`; a caller never gets more than ten active jobs through this route; when the job is created the disk ends as `StagedInput` describes |
| VerificationEndpoint.ProofStatusRoute | backend/app/api/v1/endpoints/verification.py:53-71 | the job's status and error, with `proof_available` iff the status is completed |
| VerificationEndpoint.AvailableAfterCleanup | backend/app/api/v1/endpoints/verification.py:70 | a completed job whose proof was swept still reports `proof_available` |
| VerificationEndpoint.JobDetailsRoute | backend/app/api/v1/endpoints/verification.py:74-87 | the job, with the same errors as the status lookup |
| VerificationEndpoint.VerifyRoute | backend/app/api/v1/endpoints/verification.py:90-103 | `verify_proof` for the caller; a verification row only on success |
| VerificationEndpoint.MyProofsRoute | backend/app/api/v1/endpoints/verification.py:106-121 | bounds or a 422; exactly the caller's jobs from position `skip` counted from the newest, at most `limit` of them |
| Worker.RetryOutcome | backend/app/workers/tasks/proof_generation.py:121-136 | a retry while fewer than three retries were made, the re-raised fault afterwards |
| Worker.HashOrUnknown | backend/app/workers/tasks/proof_generation.py:98 | the model hash, or `unknown` when it is empty |
| Worker.Precheck | backend/app/workers/tasks/proof_generation.py:67-86 | missing model, missing model file and missing input path, each with its message in that order; none iff the model, its file and the input exist |
| Worker.GenerateZkmlProofTask | backend/app/workers/tasks/proof_generation.py:40-160 | missing job: failure without changes; a fault at lookup or after the start: retry with a note on the row; completed job: skipped; a failing check or step: failed row; otherwise completed with the three paths, which exist; only that row changes and no file is lost |
| Worker.RunFoundJob | backend/app/workers/tasks/proof_generation.py:51-157 | the same outcomes for a job that was found, returned as the row to store |
| Worker.ProcessJob | backend/app/workers/tasks/proof_generation.py:67-119 | the checks, then proof generation; failed or completed, with the row to store |
| Worker.RunEndsSettled | backend/app/workers/tasks/proof_generation.py:104-157 | a run that does not retry ends completed with proof and settings paths, or failed with its error, stamped with its times and task id; the job's owner, model, input hash, input path and creation time are kept |
| Worker.AfterCleanup | backend/app/workers/tasks/proof_generation.py:175-207 | each completed job finished before the cut-off whose directory exists has its three paths cleared; the others are unchanged |
| Worker.CleanupOldProofs | backend/app/workers/tasks/proof_generation.py:163-225 | the table becomes `AfterCleanup` and keeps its invariants; the count is the number of cleaned jobs; exactly the files and directories under cleaned jobs' directories are removed |
| Worker.CleanJobs | backend/app/workers/tasks/proof_generation.py:184-207 | the loop cleans the selected jobs one by one |
| Worker.CleanJob | backend/app/workers/tasks/proof_generation.py:185-204 | one job: its directory tree is removed and its paths cleared iff it is selected and its directory exists |
| Worker.CleanupKeepsJobsValid | backend/app/workers/tasks/proof_generation.py:196-198 | clearing paths keeps the job table's invariants |
| Worker.CleanupIdempotent | backend/app/workers/tasks/proof_generation.py:163-225 | a second cleanup with the same cut-off cleans nothing and changes nothing |
| Store.Page | backend/app/services/model_registry_service.py:227 | `offset(skip).limit(limit)`: the rows from `skip` on, at most `limit` of them |
| Store.PagesConcatenate | backend/app/services/model_registry_service.py:227 | two consecutive pages make the double-size page |
| Store.JobDirsApart | backend/app/workers/tasks/proof_generation.py:186 | the directories of two different jobs are different and neither is inside the other |
| Store.Disk.RemoveDirIfEmpty | backend/app/services/model_registry_service.py:266-269 | `rmdir` removes a directory only if it is empty |
| Store.Disk.MoveDir | backend/app/services/proof_service.py:83-93 | everything under the source reappears under the target |
| Store.Disk.RemoveTree | backend/app/workers/tasks/proof_generation.py:193 | removes the directory and everything under it |

## Left out

- The ORM model classes live under `backend/app/models/`, which is not part of this model. The records in `Store` carry the fields the services read and write.
- Database sessions, transactions, `refresh` and concurrency are left out. Each table is a class whose rows the services reassign, and two requests never interleave.
- Hashes are parameters: SHA-256 over text and over bytes, bcrypt, and JWT signing and decoding. Properties that need a sound or binding hasher, or a round-tripping codec, take that as a requirement.
- `compute_file_hash`, `compute_stream_hash` and chunked reading and writing of uploads are not modelled as I/O. A file's contents are the byte sequence passed in.
- File contents are not tracked on the `Disk`. Only which files and directories exist is tracked.
- `mkdir(parents=True)` creates only the named directory in the model. Intermediate directories are not tracked.
- Path normalisation is not modelled, and neither are file names that contain `/` in uploads. Paths are texts joined with `/`.
- ASCII-only character classes and case mapping: `str.isdigit`, `isupper`, `islower`, `lower` and the `\d` of the version pattern. Non-ASCII digits and letters are treated as neither.
- Pydantic's error messages and the shape of a 422 body are abstracted into a field name and a message.
- A malformed request body is left out. An explicit `null` role is treated as the default.
- `EmailStr` validation is a parameter. It returns the normalised address, or nothing for an invalid email. The login email of `UserLogin` goes through the same normalisation before it reaches `AuthService.AuthenticateUser`, which receives the normalised text.
- Config.AssembleDbConnection: the URL built by `PostgresDsn.build` is not percent-encoded, and the contract states only the kept explicit URL and the `postgresql+asyncpg://` scheme prefix; where the user, password, host, port and database path appear in the built URL is not stated.
- ConvertValue: whether a string reads as a float is the parameter `isFloat`. Python's float grammar is not modelled.
- The rewrite of `settings.json` by `fix_settings_types` is not modelled as a file write. Only the value conversion is modelled.
- The ezkl calls are left out as steps: `gen_settings`, `calibrate_settings`, `compile_circuit`, `get_srs`, `setup`, `gen_witness`, `prove` and `verify`. Each step's outcome is a parameter, an optional error or the verifier's answer.
- A copy that fails is modelled only inside `cache_setup_artifacts` (`copyFault`). Copies out of a complete cache always succeed.
- Celery's retry scheduling, backoff and jitter are left out. Database faults are modelled at two points, the lookup and after the job is marked processing. Recording the retry note is assumed to succeed.
- `freed_bytes`/`rglob` sizes and the ISO text of the cut-off are not returned by the cleanup model. A failing `rmtree` halfway through a tree is not modelled.
- `verification_time_ms` is not stored on the verification row.
- The `.value` of the role and status enums is a parameter (`roleValue`, `statusText`).
- Deps.ApiKeyLookup: "first" means first in table order; the query at deps.py:73 has no `ORDER BY`, so the database may return the rows in another order. This matters only when two stored hashes accept the same key.
- ZkmlProof.SetupModel: a failing step is taken to write none of its own outputs; a key-generation step that writes the verification key and then fails on the proving key is not modelled.
- ModelRegistry.SaveUploadedFile: a failing `mkdir` creates nothing, although `parents=True` may already have created some parent directories.
- ZkmlProof.InputHashIgnoresKeyOrder: relates objects whose top-level entries agree up to order. Nested values must be identical.
- `expected_output` of a proof request is accepted and unused, as in the source.
- `progress` of the status response is not modelled.
- Token expiry is not checked when a token is decoded. The decoder parameter decides whether a token is accepted.
- `POST /auth/register` and `GET /auth/me` pass their input straight to `UserSchema.ValidateUserCreate`, `AuthService.RegisterUser` and `Deps.GetCurrentActiveUser`. They have no members of their own.
- `main.py`, `router.py`, logging, the health endpoints, `celery_app.py`, `ezkl_helper.py`, `schemas/proof.py` and `database/base.py` are outside the core.

## Findings

| source | as written | input that shows it | evidently intended | confidence | as-written member | corrected member |
|---|---|---|---|---|---|---|
| backend/app/api/deps.py:85-99 | the JWT dependency `get_current_active_user` runs first and raises 401 when no bearer token is sent, so the API-key fallback `jwt_user or api_user` is never reached | a request without an `Authorization` header that sends the valid `X-API-Key` of an active user | a request with no bearer token is authenticated by its API key | not executed | Deps.GetCurrentUserFlexible (with Deps.ApiKeyAloneIsRefused) | Deps.FlexibleIntended (with Deps.IntendedAcceptsOnlyActiveRows) |
