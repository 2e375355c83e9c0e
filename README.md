# Enrolment record store and schema upgrade, modelled in Dafny

This project models two parts of the LiteracyApp authentication app.

The first part is the enrolment pipeline of `TrainingHelper`. The app keeps four kinds of records:

- StudentImage;
- StudentImageFeature, the feature vector extracted from one image;
- StudentImageCollectionEvent, one enrolment session that groups images;
- Student.

`extractFeatures` fetches every image whose feature id is 0 and walks that list. For each image, in order:

- it validates the image;
- it runs the face network on the image;
- it serialises the vector and stores it as a feature; an invalid image is deleted alone or with its event's records instead.

As written, the code never takes its "extraction failed" branch: the serialised vector is never empty, so even an empty vector is stored. A failed extraction is an exception that ends the batch. The model states both this behaviour and the corrected one, which deletes the event's records recursively on a failed or empty extraction (see Findings).

`trainClassifier` fetches every event without a mean feature vector. For each one it:

- averages the feature vectors of the event's images;
- creates one Student, and copies an image picked at random to its avatar file; the avatar path is set when that file exists afterwards;
- links that Student to the event.

The second part is `CustomDaoMaster.DevOpenHelper.onUpgrade`. It issues a fixed, version-gated sequence of schema actions for a database that is still at `oldVersion`.

## Structure

- `records.dfy` (module `Records`) holds the records and the store. The store is a value of four maps keyed by record id, plus the next Student key.
  - It also holds the store invariant `ValidStore`.
  - It holds the query `Select`, which lists the keys of the rows that match a condition, in some order, and `Rows`, which loads those rows.
  - A feature is stored under its image's id. A feature id of 0 means "no feature yet".
- `mean_vector.dfy` (module `MeanVector`) holds the component-wise mean of equally long vectors, over `real`.
- `extraction.dfy` (module `Extraction`) states what `extractFeatures` and its helpers do to a store, as functions, and proves the properties of that behaviour.
  - `ExtractOne` is one turn of the loop.
  - `ExtractAll` is the whole loop.
  - `ExtractFeatures` is the method body.
  - `ExtractOneAsWritten` and `ExtractAllAsWritten` state the failure path as the code writes it, next to the corrected one (see Findings).
- `training.dfy` (module `Training`) does the same for `trainClassifier` and `createStudent`.
  - `TrainOne` is one turn.
  - `TrainAll` runs a plan.
  - A plan is one `TrainStep` per event. Each step holds the event's key, its images in the order the store listed them, and the index the random draw picked.
- `training_helper.dfy` (module `Authentication`) holds the class `TrainingHelper`. Its fields are the four tables and the key counter. Its methods update them in place, as the DAO calls do, with the same loops.
  - Each method's `ensures` ties the new state to the functions above, and the lemmas there carry the properties.
  - The order in which a query returns rows is a real out-parameter of `ExtractFeatures` (`pending`) and of `TrainClassifier` (`plan`).
  - The random avatar index is a nondeterministic choice inside the range.
- `custom_dao_master.dfy` (module `CustomDaoMaster`) holds two classes:
  - `Database`, reduced to the log of schema actions issued on it;
  - `DevOpenHelper`, whose `OnUpgrade` appends actions gated by independent `if`s on `oldVersion`.

  The function `UpgradeActions` states the same schedule as a table of thresholds. The lemmas prove its ordering, its edge cases and its monotonicity.

The environment is an `Environment` value that the operations take as a parameter. It holds:

- the set of existing files;
- the model and avatar directories;
- the feature extractor, as a function from network and image path to an optional vector;
- whether the avatar file exists after an image is copied to a path;
- the unique-id generator;
- the current time.

## Model

| member | source | states |
|---|---|---|
| Records.Select | app/src/main/java/org/literacyapp/authentication/TrainingHelper.java:83-85 | The query lists each matching key exactly once and nothing else: distinct, sound and complete. |
| Records.Rows | app/src/main/java/org/literacyapp/authentication/TrainingHelper.java:193-196 | The loaded rows are the current records under the listed keys, in the listed order. |
| Authentication.TrainingHelper.ExtractFeatures | app/src/main/java/org/literacyapp/authentication/TrainingHelper.java:82-103 | The list it walks is exactly the images with feature id 0 at the time of the query. The new store is `ExtractFeatures` of the old store over that list. The store invariant is kept. |
| Authentication.TrainingHelper.IsStudentImageValid | app/src/main/java/org/literacyapp/authentication/TrainingHelper.java:175-188 | Reports valid exactly when the image's event exists and its file exists. Otherwise it deletes the image alone (no event) or cascades (missing file), as `AfterValidation` says. |
| Authentication.TrainingHelper.DeleteStudentImagesRecursive | app/src/main/java/org/literacyapp/authentication/TrainingHelper.java:191-209 | After the loop over the queried siblings, the store is `DeleteRecursive` of the old store: the featured siblings and their features, then the event, then the image. |
| Authentication.TrainingHelper.DeleteRows | app/src/main/java/org/literacyapp/authentication/TrainingHelper.java:197-202 | Deleting each listed image with its feature removes exactly the listed images and exactly their features; events and students are unchanged. |
| Authentication.TrainingHelper.StoreStudentImageFeature | app/src/main/java/org/literacyapp/authentication/TrainingHelper.java:110-116 | The new store is `StoreFeature`: the feature is inserted under the image's id and the image is linked to it. |
| Authentication.TrainingHelper.TrainClassifier | app/src/main/java/org/literacyapp/authentication/TrainingHelper.java:214-243 | The plan it builds covers every untrained event exactly once, each with exactly its images. The new store is `TrainAll` of the old store over that plan. The store invariant is kept. |
| Authentication.TrainingHelper.TrainEvent | app/src/main/java/org/literacyapp/authentication/TrainingHelper.java:220-241 | One turn for one event extends the plan by one well-formed step whose images are the event's images. The store becomes `TrainAll` of the extended plan. |
| Authentication.TrainingHelper.GetStudentImages | app/src/main/java/org/literacyapp/authentication/TrainingHelper.java:222 | The rows returned are the current images of the event, each exactly once. |
| Authentication.TrainingHelper.FeatureVectors | app/src/main/java/org/literacyapp/authentication/TrainingHelper.java:223-227 | One vector per image, in order, each being the vector of that image's feature. |
| Authentication.TrainingHelper.CreateStudent | app/src/main/java/org/literacyapp/authentication/TrainingHelper.java:250-268 | The random index lies in [0, number of images). The new Student is inserted under the next key, with the generated unique id and the creation time. The avatar is set to the avatar path exactly when the avatar file exists after the copy attempt. |
| Authentication.PendingQuery | app/src/main/java/org/literacyapp/authentication/TrainingHelper.java:83-85 | The rows the feature-id-0 query returns form a pending list of the store. |
| Authentication.MemberQuery | app/src/main/java/org/literacyapp/authentication/TrainingHelper.java:222 | The rows listed for an event are its current images, and their ids are exactly the event's image keys. |
| Authentication.ListedAll | app/src/main/java/org/literacyapp/authentication/TrainingHelper.java:193-202 | When the loop has deleted every listed key and only listed keys, the deleted set is the whole sibling set. |
| Authentication.PlanFromQuery | app/src/main/java/org/literacyapp/authentication/TrainingHelper.java:217-220 | One planned step per queried event, in query order, is a training plan: no event twice, only untrained events, and every untrained event. |
| Authentication.NextEventUntrained | app/src/main/java/org/literacyapp/authentication/TrainingHelper.java:217-220 | The event the loop takes next is untrained and is not yet in the plan. |
| Extraction.ModelMissingChangesNothing | app/src/main/java/org/literacyapp/authentication/TrainingHelper.java:142-157 | Without the model file the network is null and the batch changes no record. |
| Extraction.OrphanDeletedAlone | app/src/main/java/org/literacyapp/authentication/TrainingHelper.java:178-181 | An image whose event is absent from the current store is reported invalid and deleted alone. Every other record is unchanged. |
| Extraction.MissingFileDeletesRecursively | app/src/main/java/org/literacyapp/authentication/TrainingHelper.java:182-185 | An image with an event but no file is invalid, and its turn is the recursive delete keyed off that image. |
| Extraction.FailedExtractionDeletesRecursively | app/src/main/java/org/literacyapp/authentication/TrainingHelper.java:92-98 | A valid image whose extraction gives no vector, or an empty one, triggers the same recursive delete. |
| Extraction.SuccessfulExtractionStoresOne | app/src/main/java/org/literacyapp/authentication/TrainingHelper.java:92-94 | For the stored pending row, an extraction that gives a non-empty vector adds exactly one feature, under the image's id, holding the extracted vector and the time. The image row is the stored row with only its feature id set, so it is no longer pending. Every other image and feature, the events, the Students and the key counter are unchanged. |
| Extraction.DeleteRecursiveExact | app/src/main/java/org/literacyapp/authentication/TrainingHelper.java:191-209 | Exactly these records disappear: the featured images of the event and their features, the event, and the image. Every surviving record is unchanged. |
| Extraction.DeleteRecursiveSparesOtherEvents | app/src/main/java/org/literacyapp/authentication/TrainingHelper.java:193-196 | An image of another event keeps its record, its feature and its event. |
| Extraction.FeaturelessSiblingsSurvive | app/src/main/java/org/literacyapp/authentication/TrainingHelper.java:195 | A sibling without a feature survives the cascade unchanged, now referring to an event that no longer exists. |
| Extraction.DeleteImageKeepsValid | app/src/main/java/org/literacyapp/authentication/TrainingHelper.java:179 | Deleting an image without a feature keeps the store invariant. |
| Extraction.DeleteRecursiveKeepsValid | app/src/main/java/org/literacyapp/authentication/TrainingHelper.java:191-209 | The cascade keeps the store invariant. |
| Extraction.StoreFeatureKeepsValid | app/src/main/java/org/literacyapp/authentication/TrainingHelper.java:110-114 | Storing a feature keeps the store invariant. |
| Extraction.ExtractOneStep | app/src/main/java/org/literacyapp/authentication/TrainingHelper.java:90-99 | Each turn removes exactly its own image from the pending set and leaves the other pending images alone. A feature can appear only under that image's id, and events are only ever deleted. A featured image is either untouched or gone together with its feature and event. |
| Extraction.ProgressStep | app/src/main/java/org/literacyapp/authentication/TrainingHelper.java:90-100 | The loop's progress invariant survives one more turn. |
| Extraction.ExtractAllProgress | app/src/main/java/org/literacyapp/authentication/TrainingHelper.java:90-100 | After the first n turns, the pending images are exactly those not yet visited, unchanged. Features were added only for visited images; a feature that existed before either stays, with its image, or is gone together with its image and its event. Surviving events are unchanged and Students are untouched. |
| Extraction.ExtractFeaturesIdempotent | app/src/main/java/org/literacyapp/authentication/TrainingHelper.java:82-103 | With the model present, the batch leaves no pending image and adds features only for images that were pending. A second run lists nothing and changes nothing. |
| Extraction.FeaturedImagesUntouched | app/src/main/java/org/literacyapp/authentication/TrainingHelper.java:83-90 | An image that already had a feature is never processed. It is either kept with its feature, or removed only by a cascade that also removed its event. |
| MeanVector.Mean | app/src/main/java/org/literacyapp/authentication/TrainingHelper.java:229-232 | The mean has one component per column of the stacked vectors. |
| MeanVector.ColumnSumBounds | app/src/main/java/org/literacyapp/authentication/TrainingHelper.java:230 | A column sum lies between n times the column's lower bound and n times its upper bound. |
| MeanVector.MeanWithinBounds | app/src/main/java/org/literacyapp/authentication/TrainingHelper.java:230 | Each component of the mean lies between the smallest and the largest value in its column. |
| MeanVector.MeanOfCopies | app/src/main/java/org/literacyapp/authentication/TrainingHelper.java:230 | The mean of copies of one vector is that vector. |
| MeanVector.MeanExample | app/src/main/java/org/literacyapp/authentication/TrainingHelper.java:229-232 | The mean of [1,2,3], [3,4,5] and [5,6,7] is [3,4,5]. |
| Training.StepFromQuery | app/src/main/java/org/literacyapp/authentication/TrainingHelper.java:222-227 | The images the store lists for a trainable untrained event, with an index in range, make a well-formed step. |
| Training.PlanWellFormed | app/src/main/java/org/literacyapp/authentication/TrainingHelper.java:220-227 | Every step of a plan for a trainable store is well formed. |
| Training.TrainOneStudents | app/src/main/java/org/literacyapp/authentication/TrainingHelper.java:236-265 | One turn inserts exactly the Student `createStudent` builds, under the next key, and advances the key counter by one. |
| Training.TrainOneEvents | app/src/main/java/org/literacyapp/authentication/TrainingHelper.java:229-239 | One turn changes only its own event, which receives the mean of its images' vectors and the new Student's key. |
| Training.TrainOneKeepsValid | app/src/main/java/org/literacyapp/authentication/TrainingHelper.java:236-239 | The next key is free and one turn keeps the store invariant. |
| Training.TrainAllNext | app/src/main/java/org/literacyapp/authentication/TrainingHelper.java:220-241 | A plan of n steps advances the key counter by n. |
| Training.TrainAllStudents | app/src/main/java/org/literacyapp/authentication/TrainingHelper.java:236-265 | A plan of n steps inserts exactly n Students under fresh keys, keeps every existing Student, and keeps the store invariant. |
| Training.TrainAllAvatar | app/src/main/java/org/literacyapp/authentication/TrainingHelper.java:254-262 | The Student of the i-th event has its avatar set, to the path named after its unique id, exactly when that file exists after the attempt to copy the picked image there. |
| Training.TrainAllTrainsEvent | app/src/main/java/org/literacyapp/authentication/TrainingHelper.java:221-239 | The i-th planned event ends with the mean of its images' vectors and a link to the i-th new Student. Every other field of it is unchanged. |
| Training.TrainAllSparesOthers | app/src/main/java/org/literacyapp/authentication/TrainingHelper.java:217 | An event outside the plan is unchanged. |
| Training.TrainedEventsUntouched | app/src/main/java/org/literacyapp/authentication/TrainingHelper.java:217 | Events that already had a mean vector are unchanged. |
| Training.TrainClassifierTrainsAll | app/src/main/java/org/literacyapp/authentication/TrainingHelper.java:214-243 | After training, no event lacks a mean vector. |
| Training.TrainClassifierIdempotent | app/src/main/java/org/literacyapp/authentication/TrainingHelper.java:214-243 | After training, the store is valid, a second run has an empty plan and changes nothing. |
| Training.NoUntrainedNoPlan | app/src/main/java/org/literacyapp/authentication/TrainingHelper.java:217-219 | A non-empty plan exists only when some event is untrained. |
| CustomDaoMaster.Database.ExecSql | app/src/main/java/org/literacyapp/dao/CustomDaoMaster.java:48 | Appends exactly one SQL action to the log. |
| CustomDaoMaster.DropAllTables | app/src/main/java/org/literacyapp/dao/CustomDaoMaster.java:37 | Appends exactly one drop-all action. |
| CustomDaoMaster.OnCreate | app/src/main/java/org/literacyapp/dao/CustomDaoMaster.java:38 | Appends exactly one create-all action. |
| CustomDaoMaster.Migrate | app/src/main/java/org/literacyapp/dao/CustomDaoMaster.java:53-56 | Appends exactly one migration of the given DAOs. |
| CustomDaoMaster.DevOpenHelper.OnUpgrade | app/src/main/java/org/literacyapp/dao/CustomDaoMaster.java:33-79 | The log grows by exactly the actions of the steps whose threshold exceeds `oldVersion`, in table order. `newVersion` does not appear in the result. |
| CustomDaoMaster.UpgradeActionsBySteps | app/src/main/java/org/literacyapp/dao/CustomDaoMaster.java:36-79 | The table schedule equals the six independent guarded blocks run one after another. |
| CustomDaoMaster.NothingFromCurrentVersion | app/src/main/java/org/literacyapp/dao/CustomDaoMaster.java:36-79 | From version 2000007 on, no step of the table is due, so no schema action runs. |
| CustomDaoMaster.EverythingBelowFirstThreshold | app/src/main/java/org/literacyapp/dao/CustomDaoMaster.java:36-79 | Below 2000000, drop and create run first, then every later step, in this order: drop/create, ALTER ALLOPHONE `USAGE_COUNT`, migrate Allophone and JoinNumbersWithWords, StoryBook, Word, Allophone and Letter. |
| CustomDaoMaster.OnlyAllophoneAndLetterFrom2000005 | app/src/main/java/org/literacyapp/dao/CustomDaoMaster.java:66-79 | At 2000005 and 2000006, only the Allophone and Letter migration runs. |
| CustomDaoMaster.StepsAscending | app/src/main/java/org/literacyapp/dao/CustomDaoMaster.java:36-79 | The thresholds strictly increase in source order. |
| CustomDaoMaster.AllDue | app/src/main/java/org/literacyapp/dao/CustomDaoMaster.java:36-79 | Below the first threshold of an ascending table, every step is due. |
| CustomDaoMaster.DueIsSuffix | app/src/main/java/org/literacyapp/dao/CustomDaoMaster.java:36-79 | In an ascending table, the due steps are a suffix of the table. |
| CustomDaoMaster.DueShrinks | app/src/main/java/org/literacyapp/dao/CustomDaoMaster.java:36-79 | A higher old version never has more due steps. |
| CustomDaoMaster.UpgradeIsTableSuffix | app/src/main/java/org/literacyapp/dao/CustomDaoMaster.java:36-79 | The upgrade runs a final segment of the step table. |
| CustomDaoMaster.DueActionsShrink | app/src/main/java/org/literacyapp/dao/CustomDaoMaster.java:36-79 | In an ascending table, the actions for a higher version are a suffix of those for a lower one. |
| CustomDaoMaster.UpgradeMonotonic | app/src/main/java/org/literacyapp/dao/CustomDaoMaster.java:36-79 | The action list for a higher `oldVersion` is a suffix of the list for any lower `oldVersion`. |
| CustomDaoMaster.FlattenAppend | app/src/main/java/org/literacyapp/dao/CustomDaoMaster.java:36-79 | Actions of concatenated step lists are the concatenated actions. |
| CustomDaoMaster.DueAppend | app/src/main/java/org/literacyapp/dao/CustomDaoMaster.java:36-79 | Adding a step at the end adds it to the due steps exactly when its guard holds. |
| Authentication.TrainingHelper.ExtractImage | app/src/main/java/org/literacyapp/authentication/TrainingHelper.java:90-99 | One turn of the loop leaves the store as the corrected turn `ExtractOne` of the old store: validation, then the stored feature, or the recursive delete on a failed or empty extraction. |
| Authentication.TrainingHelper.UntrainedEventIds | app/src/main/java/org/literacyapp/authentication/TrainingHelper.java:217 | The query lists each event without a mean vector exactly once and nothing else. |
| Authentication.TrainingHelper.TrainNextListed | app/src/main/java/org/literacyapp/authentication/TrainingHelper.java:220-241 | One turn trains the next listed event and extends the plan by one planned, well-formed step for it; the store is `TrainAll` of the extended plan. |
| Authentication.PlanComplete | app/src/main/java/org/literacyapp/authentication/TrainingHelper.java:217-243 | After the loop the plan is a training plan and the trained store keeps the invariant. |
| Extraction.GetInitializedTensorFlow | app/src/main/java/org/literacyapp/authentication/TrainingHelper.java:142-165 | No network exactly when the model file is missing; otherwise a network on that file with input size 224, output size 4096 and image mean 128. |
| Extraction.DeleteImage | app/src/main/java/org/literacyapp/authentication/TrainingHelper.java:179 | Only the image's key leaves the image table; every other record is unchanged. |
| Extraction.DeleteRecursive | app/src/main/java/org/literacyapp/authentication/TrainingHelper.java:191-209 | The image and its event are gone, tables only shrink, and Students and the key counter are unchanged. |
| Extraction.AfterValidation | app/src/main/java/org/literacyapp/authentication/TrainingHelper.java:175-188 | A valid image changes nothing; an invalid one is removed from the images; Students are unchanged. |
| Extraction.StoreFeature | app/src/main/java/org/literacyapp/authentication/TrainingHelper.java:110-114 | The feature holds the vector under the image's id, the image row is overwritten with the link to it, one feature key is added, and every other row is unchanged. |
| Extraction.ExtractOne | app/src/main/java/org/literacyapp/authentication/TrainingHelper.java:90-99 | A corrected turn only ever deletes events, keeps every surviving event as it was, and never touches a Student or the key counter. |
| Extraction.ExtractAll | app/src/main/java/org/literacyapp/authentication/TrainingHelper.java:90-100 | The corrected loop only ever deletes events, keeps every surviving event as it was, and never touches a Student or the key counter. |
| Extraction.ExtractFeatures | app/src/main/java/org/literacyapp/authentication/TrainingHelper.java:82-103 | The corrected batch only ever deletes events, keeps every surviving event as it was, and never touches a Student or the key counter. |
| Extraction.FeaturedOrphanLeavesFeature | app/src/main/java/org/literacyapp/authentication/TrainingHelper.java:178-181 | Validating an image with a feature but no event deletes the image, keeps its feature, and breaks the store invariant. |
| Extraction.ToJson | app/src/main/java/org/literacyapp/authentication/TrainingHelper.java:133 | The serialised list is bracketed, so never empty, and an empty vector gives `[]`. |
| Extraction.ExtractOneAsWritten | app/src/main/java/org/literacyapp/authentication/TrainingHelper.java:90-98 | One turn as written: it aborts exactly when a valid image's extraction throws; any vector from a valid image, empty or not, is stored as a feature; an invalid image gets the validation outcome. |
| Extraction.AsWrittenBatchFrame | app/src/main/java/org/literacyapp/authentication/TrainingHelper.java:90-100 | The batch as written, finished or aborted, only ever deletes events, keeps every surviving event as it was, and never touches a Student or the key counter. |
| Extraction.EmptyVectorStoredAsWritten | app/src/main/java/org/literacyapp/authentication/TrainingHelper.java:92-94 | As written, an empty vector passes the emptiness test and is stored as a feature; the corrected turn deletes the event recursively. |
| Extraction.ExtractAllAsWritten | app/src/main/java/org/literacyapp/authentication/TrainingHelper.java:90-100 | The loop as written stops at the first turn that throws, and the turns before it stay committed (the aborting cases are `FirstThrowAborts` and `ThrowAbortsBatchAsWritten`). Whether it finishes or stops, it never touches a Student or the key counter and never adds an event. |
| Extraction.FirstThrowAborts | app/src/main/java/org/literacyapp/authentication/TrainingHelper.java:90-98 | As written, an exception on the first image ends every prefix of the batch with the store unchanged. |
| Extraction.ThrowAbortsBatchAsWritten | app/src/main/java/org/literacyapp/authentication/TrainingHelper.java:90-98 | As written, an exception on the first pending image ends the batch with the store unchanged, and that image is still pending. |
| Training.NewStudent | app/src/main/java/org/literacyapp/authentication/TrainingHelper.java:250-264 | The Student has the next key, the generated unique id, the creation time, and the avatar path exactly when the avatar file exists after the copy attempt. |
| Training.CreateStudent | app/src/main/java/org/literacyapp/authentication/TrainingHelper.java:250-265 | Exactly one Student key is added, the key counter advances by one, other Students are kept, and images, features and events are unchanged. |
| Training.TrainOne | app/src/main/java/org/literacyapp/authentication/TrainingHelper.java:221-239 | A turn keeps images and features and the set of event keys. |
| Training.TrainAll | app/src/main/java/org/literacyapp/authentication/TrainingHelper.java:220-241 | Training keeps images and features and the set of event keys. |
| Training.TrainOneSparesOthers | app/src/main/java/org/literacyapp/authentication/TrainingHelper.java:238-239 | A turn leaves every other event unchanged. |
| CustomDaoMaster.UpgradeActions | app/src/main/java/org/literacyapp/dao/CustomDaoMaster.java:36-79 | The schedule is empty exactly when `oldVersion` is at least 2000007. |
| CustomDaoMaster.DueSound | app/src/main/java/org/literacyapp/dao/CustomDaoMaster.java:36-79 | A due step is a step of the table whose threshold exceeds `oldVersion`. |
| CustomDaoMaster.DueComplete | app/src/main/java/org/literacyapp/dao/CustomDaoMaster.java:36-79 | Every step whose threshold exceeds `oldVersion` is due. |
| CustomDaoMaster.FlattenHasStep | app/src/main/java/org/literacyapp/dao/CustomDaoMaster.java:36-79 | The actions of a step list are at least as many as those of any one step in it. |

## Left out

- Feature extraction itself is not modelled: OpenCV image loading, the TensorFlow forward pass, and the float conversion. `Environment.extract` is an uninterpreted function; `None` stands for an extraction that fails.
- The TensorFlow network's construction parameters are modelled as a record of the constants. Loading the network is not.
- Gson serialisation of vectors is modelled only as far as the shape of its output: `Extraction.ToJson` is a bracketed, comma-separated list, with the rendering of each number a parameter. Deserialisation is not modelled; stored vectors are `seq<real>` throughout.
- `Core.reduce` averages IEEE floats; `MeanVector.Mean` averages reals, so rounding is not modelled.
- File I/O is not modelled.
  - File existence is the set `Environment.files`.
  - Writing the download-link file when the model is missing affects no record, so it is dropped.
  - The avatar copy is reduced to whether the avatar file exists after it, `Environment.avatarFileExists`.
- Log and Toast output are not modelled.
- `findAndMergeSimilarStudents`, its two sweeps and the empty `mergeSimilarStudents` are not part of this model. They depend on recognition threads and a preprocessor that are not shown.
- `synchronized` is not modelled. The pipeline is modelled as running sequentially on one store.
- `StudentHelper.generateNextUniqueId` is not part of this model. It is the input function `Environment.nextUniqueId` of the existing unique ids.
- `Math.random` is modelled as a nondeterministic choice of an index in range.
- The database's autoincrement key for a new Student is modelled as the counter `nextStudentId`.
- The SQL statement and the effect of `DbMigrationHelper.migrate` are opaque actions in the log. AudioDao is generated persistence code and is not part of this model.
- Authentication.TrainingHelper.ExtractFeatures: requires the store invariant `ValidStore`. Under it, each record sits under its own id, and image (and so feature) ids are positive. A feature exists exactly for each image whose feature id is non-zero, and that feature id is the image's id. Student keys stay below the key counter. No database key enforces these facts; the code keeps them. `IsStudentImageValid` and `DeleteStudentImagesRecursive` keep the invariant for an image without a feature, and `StoreStudentImageFeature` for an image that is in the store. Validating an image that has a feature but no event deletes the image alone and leaves its feature behind (`Extraction.FeaturedOrphanLeavesFeature`); the batch never does this, since it validates only images without a feature.
- Authentication.TrainingHelper.TrainClassifier: requires `Trainable`. The source takes for granted that every untrained event has an image, that each of its images has a feature, and that the vectors are equally long. It fails at run time otherwise.
- Authentication.TrainingHelper.CreateStudent: requires a non-empty image list. With no images the source's `get(0)` fails.
- Query order is not modelled. The lists the queries return are out-parameters that the contracts constrain only as sets.
- `newVersion` is only logged. `OnUpgrade` takes it and ignores it.
- Authentication.TrainingHelper.ExtractImage: implements the corrected turn, which tests `|vector| == 0` and deletes recursively on a failed extraction. The source instead tests `TextUtils.isEmpty` on the serialised vector, which never holds, and lets the exception escape. The as-written turn is `Extraction.ExtractOneAsWritten`.
- Extraction.ExtractOne: is the corrected turn, as for `ExtractImage` above. The source's `TextUtils.isEmpty` test and uncaught exception are modelled by `Extraction.ExtractOneAsWritten` and `Extraction.ExtractAllAsWritten`.
- Extraction.ExtractFeaturesIdempotent: holds for the corrected batch, where a failed or empty extraction deletes the event recursively, as the log message at TrainingHelper.java:96 and the comment at :190 describe. As written, a failed extraction is an exception that ends the batch and leaves the image pending, and the emptiness test at :93 never fires (see Findings).
- Time is one value, `Environment.now`, for a whole batch. The source reads the clock for each feature (TrainingHelper.java:111) and for each Student (TrainingHelper.java:264), so records made in one batch may carry different times there.

## Findings

| source | as written | input that shows it | evidently intended | confidence | as-written member | corrected member |
|---|---|---|---|---|---|---|
| app/src/main/java/org/literacyapp/authentication/TrainingHelper.java:93 | The failure branch tests the serialised vector for emptiness, but the serialiser always returns a bracketed list, so the branch never runs and an empty vector is stored as a feature. | A valid image whose extraction yields an empty vector. | A failed extraction deletes the event recursively, as the log message at line 96 says. | not executed | Extraction.EmptyVectorStoredAsWritten | Extraction.FailedExtractionDeletesRecursively |
| app/src/main/java/org/literacyapp/authentication/TrainingHelper.java:90-98 | A failed image load or forward pass is an exception. It ends the whole batch and leaves the image pending, so every later run stops at the same image, as long as the query lists the pending images in the same order. | The first pending image is valid and its extraction fails. | The failed image's event is deleted recursively and the batch goes on, leaving no image pending. | not executed | Extraction.ThrowAbortsBatchAsWritten | Extraction.ExtractFeaturesIdempotent |
