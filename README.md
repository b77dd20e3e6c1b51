# Car-rental store and screens, modelled in Dafny

This project models the domain core of a car-rental web application. Customers
browse vehicles, reserve them and rate them. Renters confirm, cancel and take back
bookings and rate their customers. Administrators list, search and delete accounts,
and customers chat in groups.

The server side keeps seven collections: vehicles, bookings, vehicle ratings, driver
ratings, renter and customer accounts, chat groups and chat messages. Each collection
is one `Collection.Table<T>`: a sequence of documents with unique ids and a counter
for the next id. Every request handler is a Dafny `method` on those tables, or a
`function` when it only reads. Each returns a `Http.Reply`: `Ok` (200), `Created`
(201), `BadRequest` (400), `NotFound` (404) or `ServerError` (500, where the code's
`try` block catches a failed save).

- Schema rules (required fields, enums, defaults, bounds, trimming and lower-casing)
  are constructor functions. Each returns `None` when the schema would refuse the
  document: `VehicleModel.NewVehicle`, `BookingModel.NewBooking`,
  `DriverRatingModel.NewDriverRating`, `GroupModel.NewGroup`.
- The React components are classes whose fields are the component's state. Each
  handler is a method that changes exactly the state the component changes.
- A server answer that a handler awaits is a parameter of that handler. When the
  handler itself writes to the server, it runs the handler's model on the tables
  passed in, so the page state and the store are stated together.

Dates are whole day numbers. Prices, costs, minimum driver ratings and averages are
`real`. Ratings are integers. Identifiers are natural numbers.

Modules, one per source file (shared helpers in `Text`, `Lists`, `Averages`, `Http`
and `Collection`):

| module | source |
|---|---|
| `VehicleModel`, `BookingModel`, `DriverRatingModel`, `GroupModel`, `Accounts` | the Mongoose schemas under `BackEnd/Model/` |
| `VehicleController`, `BookingController`, `DriverRatingController`, `RenterController` | the controllers under `BackEnd/Controller/` |
| `ChatRoutes` | `BackEnd/Routes/chatRoutes.js` |
| `Dashboard`, `ReservePopup`, `VehicleRatingForm`, `GroupChat`, `Comparison` | the customer screens |
| `BookingRequests`, `ConfirmedBookings`, `StarRating`, `RenterViews` | the renter screens |
| `AdminLists` | the two administrator lists (customers and renters) |

Where the code and its own comments or the project's description disagree, the
model follows the code:

- A schema validation failure inside a handler's `try` block answers 500, not 400.
- The booking status enum does not declare "Received". Status updates bypass the
  schema validators, so any string, "Received" included, is stored. The listing of
  received bookings queries it.
- Both averages default to 5 when there are no ratings, not 0. The comment in
  `driverRatingController.js` says 0.
- `rateVehicle` makes no range check on the rating.
- `updateBookingStatus` overwrites any status with any status; there is no
  transition guard.
- The allow-listed `updateBookingStatus` in `bookingReqController.js` is modelled
  (`BookingController.UpdateBookingStatusChecked`) but no route reaches it.
  `BookingReqRoutes.js` imports a path that does not exist and takes its handler
  from `bookingController.js`.

## Model

| member | source | states |
|---|---|---|
| VehicleModel.NewVehicle | BackEnd/Model/Vehicle.js:3-45 | a vehicle is accepted iff every required field is supplied and any supplied status is Available or Reserved; status defaults to Available and minDriverRating to 0; every other field is stored as given |
| BookingModel.NewBooking | BackEnd/Model/Booking.js:3-22 | a booking is accepted iff its required fields are present; it starts Pending, a status of the enum, and stores every given field unchanged, the receipt optional |
| BookingModel.DateOrderIgnored | BackEnd/Model/Booking.js:4-5 | swapping the two dates changes neither whether a booking is accepted nor anything of it but the dates, so one ending before it starts is accepted alike |
| DriverRatingModel.NewDriverRating | BackEnd/Model/DriverRating.js:3-7 | a driver rating is accepted iff the e-mail is supplied and the rating is present and between 1 and 5; the stored record is valid and holds exactly the inputs |
| GroupModel.NormalizeOrderIrrelevant | BackEnd/Model/Group.js:11-12 | trimming then lower-casing a member equals lower-casing then trimming it |
| GroupModel.LowerTrimStart | BackEnd/Model/Group.js:11-12 | lower-casing commutes with trimming the front |
| GroupModel.LowerTrimEnd | BackEnd/Model/Group.js:11-12 | lower-casing commutes with trimming the end |
| GroupModel.NormalizeIdempotent | BackEnd/Model/Group.js:11-12 | normalising a member twice equals normalising it once |
| GroupModel.NormalizeAll | BackEnd/Model/Group.js:8-13 | each stored member is the normal form of the given member at the same position |
| GroupModel.NewGroup | BackEnd/Model/Group.js:3-13 | a group is accepted iff the name is supplied and no member is empty once normalised; it keeps the name and the members, in order, in normal form |
| Accounts.NewAccount | BackEnd/Model/RenterUser.js:15-18 | a new account is allowed by default |
| Accounts.FindByEmail | BackEnd/Controller/bookingController.js:30-33 | finds a stored account with that e-mail, and none exactly when no account has it |
| VehicleController.AddVehicle | BackEnd/Controller/vehicleController.js:5-17 | 201 iff a file was uploaded and the schema accepts the fields with its path; the stored vehicle is the schema's, appended under a fresh id; otherwise 500 and nothing stored |
| VehicleController.UpdateVehicleStatus | BackEnd/Controller/vehicleController.js:20-39 | sets the status of the vehicle with that id, nothing else; 404 and no change exactly when the id is unknown; answers the updated vehicle |
| VehicleController.UpdateVehicleStatusIdempotent | BackEnd/Controller/vehicleController.js:24-28 | setting the same status twice equals setting it once |
| VehicleController.UpdateVehicleStatusOnlyStatus | BackEnd/Controller/vehicleController.js:24-28 | only the identified vehicle changes, and only in its status |
| VehicleController.ImageUrlOfUpload | BackEnd/Controller/vehicleController.js:49 | an uploaded path dir/file is listed as baseUrl/file |
| VehicleController.Listings | BackEnd/Controller/vehicleController.js:47-50 | every listed vehicle keeps its id and fields, except carImage, which becomes the rewritten URL, or none without an image |
| VehicleController.GetVehicles | BackEnd/Controller/vehicleController.js:42-56 | answers 200 with every stored vehicle, in order, with rewritten image URLs |
| VehicleController.Matching | BackEnd/Controller/vehicleController.js:69-74 | a vehicle is found iff it is stored and satisfies every supplied filter (name, location, maximum price) |
| VehicleController.SearchVehicles | BackEnd/Controller/vehicleController.js:59-89 | 400 iff no filter is given; 404 iff no stored vehicle matches; otherwise 200 with the non-empty list of matches, with rewritten image URLs |
| VehicleController.MatchingEmpty | BackEnd/Controller/vehicleController.js:81-83 | the search finds nothing iff no stored vehicle satisfies the filters |
| VehicleController.OwnedBy | BackEnd/Controller/vehicleController.js:100 | a vehicle is listed iff it is stored with that owner e-mail |
| VehicleController.GetVehiclesByEmail | BackEnd/Controller/vehicleController.js:92-111 | 400 iff the e-mail is empty; otherwise 200 with the owner's vehicles, with rewritten image URLs |
| VehicleController.DeleteVehicle | BackEnd/Controller/vehicleController.js:114-127 | removes the vehicle with that id and no other; 404 and no change exactly when it is absent |
| VehicleController.EffectivePatch | BackEnd/Controller/vehicleController.js:133-137 | an uploaded file replaces the body's carImage; without one the body is used as sent |
| VehicleController.Merge | BackEnd/Controller/vehicleController.js:139-141 | every field supplied by the update replaces the stored one, and every other field is kept |
| VehicleController.MergeIdempotent | BackEnd/Controller/vehicleController.js:139-141 | applying an update twice equals applying it once; an empty update changes nothing |
| VehicleController.UpdateVehicle | BackEnd/Controller/vehicleController.js:130-151 | merges the update, with the uploaded image, into the identified vehicle only; 404 and no change when the id is unknown |
| VehicleController.RateVehicle | BackEnd/Controller/vehicleController.js:156-182 | a missing vehicleId throws (500); a bare id, whose `_id` is undefined, and an unknown vehicle answer 404; a repeated (vehicle, user) pair 400; otherwise exactly one rating is appended, whatever its value, and one rating per user and vehicle is preserved |
| VehicleController.ScoresFor | BackEnd/Controller/vehicleController.js:190 | a vehicle has no more scores than there are ratings |
| VehicleController.ScoresForAppend | BackEnd/Controller/vehicleController.js:190 | a new rating adds its score to its own vehicle's scores only |
| VehicleController.GetAverageRating | BackEnd/Controller/vehicleController.js:185-205 | answers 5 without ratings, otherwise the mean of the vehicle's scores |
| VehicleController.AverageRatingInRange | BackEnd/Controller/vehicleController.js:192-198 | when all ratings are 1 to 5 the average is between 1 and 5 |
| VehicleController.ScoresInRange | BackEnd/Controller/vehicleController.js:190 | every score of a vehicle comes from the stored ratings' range |
| BookingController.CreateBooking | BackEnd/Controller/bookingController.js:8-58 | 400 iff a required document is missing, before any lookup; then 404 iff the vehicle or the customer is unknown, saying "Vehicle not found" exactly when it is the vehicle and "User not found" otherwise; past those, 201 iff the schema accepts the fields, else 500; a created booking is Pending, takes the owner's e-mail as renterEmail and the customer's id, stores receipt and cost as given, and is appended; nothing is stored otherwise |
| BookingController.Populate | BackEnd/Controller/bookingController.js:67 | every booking is answered with its own vehicle, or none when that vehicle was deleted |
| BookingController.OfCustomer | BackEnd/Controller/bookingController.js:67 | exactly the stored bookings of that customer e-mail |
| BookingController.OfRenter | BackEnd/Controller/bookingController.js:82 | exactly the stored bookings of that renter with that status |
| BookingController.OfRenterDisjoint | BackEnd/Controller/bookingController.js:82 | lists for two different statuses share no booking |
| BookingController.GetUserBookings | BackEnd/Controller/bookingController.js:60-72 | 400 iff the e-mail is empty; otherwise the customer's bookings, populated |
| BookingController.RenterList | BackEnd/Controller/bookingController.js:74-87 | 400 iff the renter e-mail is empty; otherwise the renter's bookings with the status, populated |
| BookingController.GetBookingReq | BackEnd/Controller/bookingController.js:74-87 | 400 iff the e-mail is empty; every answered booking is the renter's and Pending |
| BookingController.GetConfirmedBooking | BackEnd/Controller/bookingController.js:89-102 | 400 iff the e-mail is empty; every answered booking is the renter's and Confirmed |
| BookingController.GetReceivedBooking | BackEnd/Controller/bookingController.js:105-118 | 400 iff the e-mail is empty; every answered booking is the renter's and Received |
| BookingController.UpdateBookingStatus | BackEnd/Controller/bookingController.js:121-141 | overwrites the status of the booking with that id with any value, nothing else; 404 and no change exactly when the id is unknown |
| BookingController.AnyStatusReachable | BackEnd/Controller/bookingController.js:126-130 | any status can be written over any other, and writing it again changes nothing |
| BookingController.ReceivedLeavesEnum | BackEnd/Controller/bookingController.js:126-130 | a stored booking marked "Received" has a status outside the declared enum, unlike every booking the schema builds |
| BookingController.UpdateBookingStatusChecked | BackEnd/Controller/bookingReqController.js:4-30 | 400 and no change iff the status is not Pending, Confirmed or Cancelled (so Received and Returned are refused); then 404 iff the booking is unknown; otherwise only its status is replaced |
| DriverRatingController.SubmitDriverRating | BackEnd/Controller/driverRatingController.js:4-20 | 400 iff the rating is outside 1..5; 201 iff the schema accepts it, appending exactly that record under a fresh id, even for a driver already rated; otherwise nothing stored; stored ratings stay valid |
| DriverRatingController.ScoresOf | BackEnd/Controller/driverRatingController.js:27 | a driver has no more scores than there are ratings |
| DriverRatingController.ScoresOfAppend | BackEnd/Controller/driverRatingController.js:27 | a new rating adds its score to its own driver's scores only |
| DriverRatingController.ScoresOfInRange | BackEnd/Controller/driverRatingController.js:27 | every score of valid ratings is between 1 and 5 |
| DriverRatingController.GetAverageDriverRating | BackEnd/Controller/driverRatingController.js:23-38 | answers 5 without ratings, otherwise the mean of the driver's scores |
| DriverRatingController.AverageDriverRatingInRange | BackEnd/Controller/driverRatingController.js:32-34 | over valid ratings the average is between 1 and 5 |
| Averages.SumAppend | BackEnd/Controller/driverRatingController.js:32 | the sum of a concatenation is the sum of its parts |
| Averages.SumBounds | BackEnd/Controller/driverRatingController.js:32 | the sum of n values between lo and hi lies between n·lo and n·hi |
| Averages.AverageOrDefault | BackEnd/Controller/driverRatingController.js:28-34 | the default without values; otherwise the value whose product with the count is the sum |
| Averages.AverageBounds | BackEnd/Controller/driverRatingController.js:28-34 | the average of values between lo and hi, or the default between them, is between lo and hi |
| Averages.MeanOfBounded | BackEnd/Controller/driverRatingController.js:33 | a mean of a sum bounded by k·lo and k·hi lies between lo and hi |
| RenterController.GetAllRenters | BackEnd/Controller/RenterController.js:4-12 | answers every stored renter, in order |
| RenterController.DeleteRenter | BackEnd/Controller/RenterController.js:15-27 | removes only that renter; 404 and no change exactly when it is absent |
| RenterController.StatusMessage | BackEnd/Controller/RenterController.js:42-43 | the message names the new status: allowed iff the renter is now allowed |
| RenterController.ToggleRenterStatus | BackEnd/Controller/RenterController.js:30-47 | flips isAllowed of that renter only and reports the new status; 404 and no change when it is absent |
| RenterController.ToggleTwice | BackEnd/Controller/RenterController.js:39-40 | toggling twice restores every renter |
| ChatRoutes.MyGroups | BackEnd/Routes/chatRoutes.js:8-22 | answers exactly the stored groups whose members include the e-mail as the members setters normalise it (trimmed, lower-cased) |
| ChatRoutes.MyGroupsIgnoresCase | BackEnd/Routes/chatRoutes.js:12 | asking with any case or spacing of an address finds the same groups as asking with its normal form |
| ChatRoutes.RawMembers | BackEnd/Routes/chatRoutes.js:35 | the members plus the creator, each raw string once, the creator among them |
| ChatRoutes.CreateGroup | BackEnd/Routes/chatRoutes.js:25-50 | 400 iff the name is missing or members is not an array; 201 iff the schema accepts the deduplicated members with the creator, storing them normalised with the creator's normal form among them; otherwise 500; nothing stored unless 201 |
| ChatRoutes.CaseVariantsStoredTwice | BackEnd/Routes/chatRoutes.js:33-36 | "A" with creator "a" is stored as the member list ["a", "a"] |
| ChatRoutes.CreateGroupDistinctWhenNormalized | BackEnd/Routes/chatRoutes.js:33-36 | members and creator already in normal form are stored without duplicates |
| ChatRoutes.InsertByTimestamp | BackEnd/Routes/chatRoutes.js:56 | inserting into a list sorted by timestamp keeps it sorted and adds exactly that message |
| ChatRoutes.SortByTimestamp | BackEnd/Routes/chatRoutes.js:56 | the result is sorted by timestamp and a permutation of the input |
| ChatRoutes.GroupMessages | BackEnd/Routes/chatRoutes.js:53-67 | answers exactly the group's messages, as a multiset, in ascending timestamp order |
| ChatRoutes.SendMessage | BackEnd/Routes/chatRoutes.js:70-103 | 400 and no change iff group, content or sender is missing; otherwise one message appended, stamped with the given time, read only by its sender |
| ChatRoutes.AddToSet | BackEnd/Routes/chatRoutes.js:116 | the reader is added once; the other readers stay, and nothing is added for a reader already listed |
| ChatRoutes.MarkedRead | BackEnd/Routes/chatRoutes.js:114-117 | only listed messages of the group gain the reader; all others are unchanged |
| ChatRoutes.MarkReadIdempotent | BackEnd/Routes/chatRoutes.js:114-117 | marking the same messages read by the same reader twice equals doing it once |
| ChatRoutes.MarkRead | BackEnd/Routes/chatRoutes.js:106-133 | 400 and no change iff messageIds is not an array; otherwise the store becomes the marked-read messages |
| ChatRoutes.AddMember | BackEnd/Routes/chatRoutes.js:137-168 | 400 for a missing e-mail or one already listed as sent, 404 for an unknown group, 500 when empty once normalised; 200 exactly when none of these holds, and then its normal form is appended to that group only; no change unless 200 |
| ChatRoutes.AddMemberKeepsDistinct | BackEnd/Routes/chatRoutes.js:151-156 | for a duplicate-free group and an address the check lets in, the members stay duplicate-free exactly when the address's normal form was not already a member |
| ChatRoutes.AddMemberCaseVariant | BackEnd/Routes/chatRoutes.js:151-155 | "A" passes the membership check of a group holding "a", which then lists "a" twice |
| Dashboard.RequestFor | FrontEnd/vite-project/src/Components/Customer/Dashboard.jsx:48-58 | the full list iff search term and both filters are empty; otherwise a search sending each non-empty parameter and only those |
| Dashboard.AvailableOnly | FrontEnd/vite-project/src/Components/Customer/Dashboard.jsx:61-63 | exactly the fetched vehicles whose status is Available |
| Dashboard.Eligible | FrontEnd/vite-project/src/Components/Customer/Dashboard.jsx:97-99 | exactly the vehicles whose minimum driver rating the driver rating reaches |
| Dashboard.ShownIffReservable | FrontEnd/vite-project/src/Components/Customer/Dashboard.jsx:106-108 | every shown vehicle can be reserved, and every fetched vehicle that can be reserved is shown |
| Dashboard.DriverRatingOf | FrontEnd/vite-project/src/Components/Customer/Dashboard.jsx:84 | the answered average, or 0 without one |
| Dashboard.DashboardState.constructor | FrontEnd/vite-project/src/Components/Customer/Dashboard.jsx:10-31 | the initial state: nothing fetched, rating 0, no filters, nothing selected |
| Dashboard.DashboardState.Refilter | FrontEnd/vite-project/src/Components/Customer/Dashboard.jsx:95-103 | with vehicles held, the shown list is their eligible part and noResults says whether it is empty; otherwise nothing changes |
| Dashboard.DashboardState.FetchVehicles | FrontEnd/vite-project/src/Components/Customer/Dashboard.jsx:43-76 | a success keeps the available vehicles and noResults says whether none is eligible; a failure sets noResults and keeps the lists |
| Dashboard.DashboardState.FetchDriverRating | FrontEnd/vite-project/src/Components/Customer/Dashboard.jsx:78-103 | without a signed-in user or on failure the rating stays; otherwise it becomes the answer or 0; the shown list and `noResults` are recomputed exactly when the rating changed and vehicles are held, and stay otherwise |
| Dashboard.DashboardState.RefreshAfterBooking | FrontEnd/vite-project/src/Components/Customer/Dashboard.jsx:172-180 | the popup closes and the held vehicles become the available ones of the full list |
| Dashboard.DashboardState.ClickReserve | FrontEnd/vite-project/src/Components/Customer/Dashboard.jsx:330-335 | a disabled button changes nothing; otherwise the vehicle is selected and the popup opens |
| Dashboard.DashboardState.TypeSearchTerm | FrontEnd/vite-project/src/Components/Customer/Dashboard.jsx:239 | the search term becomes the typed text |
| Dashboard.DashboardState.ChangeTempFilter | FrontEnd/vite-project/src/Components/Customer/Dashboard.jsx:122-124 | only the named pending filter changes |
| Dashboard.DashboardState.ApplyFilters | FrontEnd/vite-project/src/Components/Customer/Dashboard.jsx:111-114 | the pending filters are applied and the popup closes |
| Dashboard.DashboardState.CloseFilters | FrontEnd/vite-project/src/Components/Customer/Dashboard.jsx:116-120 | pending and applied filters are both cleared, so the next request depends on the search term only |
| ReservePopup.RentalCostIsDailyCharges | FrontEnd/vite-project/src/Components/Customer/ReservePopup.jsx:15-18 | the computed cost is one rent charge for every day from the first to the last, both included |
| ReservePopup.RentalCostAtLeastTwoDays | FrontEnd/vite-project/src/Components/Customer/ReservePopup.jsx:15-18 | a priced rental costs at least two days' rent |
| ReservePopup.ReserveForm.constructor | FrontEnd/vite-project/src/Components/Customer/ReservePopup.jsx:3-4 | the dates, receipt, account number and cost are the Dashboard's form as the last opening left it (empty only at the first); the payment method starts as cash at every opening |
| ReservePopup.ReserveForm.ChangeDate | FrontEnd/vite-project/src/Components/Customer/ReservePopup.jsx:6-27 | only the named date changes; with both dates and the end later, the cost is recomputed; with the end not later, the end date is cleared and the cost kept; with a date missing, the cost is kept |
| ReservePopup.ReserveForm.ChoosePayment | FrontEnd/vite-project/src/Components/Customer/ReservePopup.jsx:41-43 | the payment method becomes the chosen one |
| ReservePopup.ReserveForm.ChooseReceipt | FrontEnd/vite-project/src/Components/Customer/ReservePopup.jsx:29-34 | the first chosen file becomes the receipt; an empty choice keeps the previous one |
| ReservePopup.ReserveForm.EnterAccountNumber | FrontEnd/vite-project/src/Components/Customer/ReservePopup.jsx:36-39 | the account number becomes the typed text |
| ReservePopup.ReserveForm.Submit | FrontEnd/vite-project/src/Components/Customer/ReservePopup.jsx:45-56 | no alert, and the form is submitted, iff payment is cash or a receipt and an account number are present; an online payment without a receipt gets the receipt alert, one with a receipt but no account number the account-number alert |
| VehicleRatingForm.Validate | FrontEnd/vite-project/src/Components/Customer/VehicleRating.jsx:10-21 | no error iff the vehicle id is present, the e-mail matches the pattern and the rating is 1 to 5; otherwise the first failing check's message, in that order |
| VehicleRatingForm.ReplyMessage | FrontEnd/vite-project/src/Components/Customer/VehicleRating.jsx:30-40 | thanks on success; otherwise the server's message, or the fallback when it has none |
| VehicleRatingForm.VehicleRatingState.constructor | FrontEnd/vite-project/src/Components/Customer/VehicleRating.jsx:5-6 | rating 0 and no message |
| VehicleRatingForm.VehicleRatingState.ClickStar | FrontEnd/vite-project/src/Components/Customer/VehicleRating.jsx:54 | the rating becomes the clicked star |
| VehicleRatingForm.VehicleRatingState.Submit | FrontEnd/vite-project/src/Components/Customer/VehicleRating.jsx:8-45 | a failed check shows its message and sends nothing; otherwise thanks iff the vehicle exists and the user has not rated it, and then exactly that rating is stored; every stored rating is 1 to 5 |
| StarRating.StarRatingState.constructor | FrontEnd/vite-project/src/Components/Renter/StarRating.jsx:4-5 | rating 0, not submitted |
| StarRating.StarRatingState.ClickStar | FrontEnd/vite-project/src/Components/Renter/StarRating.jsx:7-11 | a click sets the rating before submission and is ignored after it |
| StarRating.StarRatingState.Submit | FrontEnd/vite-project/src/Components/Renter/StarRating.jsx:13-20 | rating 0 submits nothing; otherwise the rating, a star 1 to 5, is handed over and the widget is marked submitted, also again |
| RenterViews.WithStatus | FrontEnd/vite-project/src/Components/Renter/BookingRequests.jsx:36-40 | only the listed bookings with that id get the new status |
| RenterViews.WithStatusMirrorsServer | FrontEnd/vite-project/src/Components/Renter/BookingRequests.jsx:36-40 | patching the listed copy equals listing the store after the server's status update |
| RenterViews.WithStatusIdempotent | FrontEnd/vite-project/src/Components/Renter/ConfirmedBookings.jsx:61-65 | patching twice equals patching once |
| RenterViews.FindView | FrontEnd/vite-project/src/Components/Renter/BookingRequests.jsx:44 | a listed booking with that id, and none exactly when none is listed |
| RenterViews.UpdateListedVehicle | FrontEnd/vite-project/src/Components/Renter/BookingRequests.jsx:45-48 | sets the status of the named vehicle; succeeds iff it exists; without a vehicle nothing changes |
| RenterViews.ListedVehicle | FrontEnd/vite-project/src/Components/Renter/BookingRequests.jsx:44 | the listed booking's vehicle, present iff the booking is listed and its populated vehicle still exists; also the vehicle ConfirmedBookings.jsx releases |
| BookingRequests.BookingRequestsPage.constructor | FrontEnd/vite-project/src/Components/Renter/BookingRequests.jsx:6-12 | no bookings, loading, no notice |
| BookingRequests.BookingRequestsPage.Fetch | FrontEnd/vite-project/src/Components/Renter/BookingRequests.jsx:59-82 | without a signed-in renter an error and nothing else; otherwise loading ends, and the list becomes the answer or stays with an error |
| BookingRequests.BookingRequestsPage.UpdateStatus | FrontEnd/vite-project/src/Components/Renter/BookingRequests.jsx:27-57 | the server's status update always runs; only when it finds the booking is the list patched, and only a confirmation reserves the listed vehicle; success is reported iff every request succeeded |
| BookingRequests.SendStatus | FrontEnd/vite-project/src/Components/Renter/BookingRequests.jsx:30-49 | the booking update, then for a confirmation the vehicle update; says whether the booking was found and whether all succeeded |
| BookingRequests.PatchedButtonDisabled | FrontEnd/vite-project/src/Components/Renter/BookingRequests.jsx:200-216 | after a confirmation only Confirm is disabled for that booking, after a cancellation only Cancel |
| ConfirmedBookings.ConfirmedBookingsPage.constructor | FrontEnd/vite-project/src/Components/Renter/ConfirmedBookings.jsx:7-10 | no bookings, modal closed, nothing selected |
| ConfirmedBookings.ConfirmedBookingsPage.Fetch | FrontEnd/vite-project/src/Components/Renter/ConfirmedBookings.jsx:18-37 | with a signed-in renter and a success the list becomes the answer; otherwise it is kept |
| ConfirmedBookings.ConfirmedBookingsPage.ReceivedVehicleClicked | FrontEnd/vite-project/src/Components/Renter/ConfirmedBookings.jsx:12-15 | the booking and its customer are selected and the modal opens |
| ConfirmedBookings.ConfirmedBookingsPage.SubmitRating | FrontEnd/vite-project/src/Components/Renter/ConfirmedBookings.jsx:45-83 | rating, then Received, then Available, each only after the previous succeeded; earlier effects stay; the list is patched once the first two succeeded; the modal always closes |
| ConfirmedBookings.SubmitSelected | FrontEnd/vite-project/src/Components/Renter/ConfirmedBookings.jsx:50-75 | the three requests' outcome is the stage the inputs reach, and the collections change exactly as that stage says |
| ConfirmedBookings.RateAndReceive | FrontEnd/vite-project/src/Components/Renter/ConfirmedBookings.jsx:50-58 | a refused rating stops everything; otherwise the rating is appended and the booking marked Received, which fails only for an unknown booking |
| ConfirmedBookings.StarAlwaysAccepted | FrontEnd/vite-project/src/Components/Renter/ConfirmedBookings.jsx:50-53 | every star 1 to 5 for a customer with an e-mail is stored; 0 stars or an empty e-mail are refused |
| GroupChat.CurrentUser | FrontEnd/vite-project/src/Components/Customer/GroupChat.jsx:21 | the stored e-mail when present and non-empty, otherwise the guest address; never empty |
| GroupChat.ParseMembers | FrontEnd/vite-project/src/Components/Customer/GroupChat.jsx:135-137 | exactly the trimmed, lower-cased comma-separated entries that match the e-mail pattern |
| GroupChat.ParsedMembersNormal | FrontEnd/vite-project/src/Components/Customer/GroupChat.jsx:135-137 | every parsed member is already in the schema's normal form |
| GroupChat.UnreadIds | FrontEnd/vite-project/src/Components/Customer/GroupChat.jsx:192-197 | exactly the messages not sent by the user and not yet read by the user |
| GroupChat.ClientMarkedRead | FrontEnd/vite-project/src/Components/Customer/GroupChat.jsx:54-65 | each listed message gains the reader, without deduplication; the others are unchanged |
| GroupChat.ClientReadAgreesWithStore | FrontEnd/vite-project/src/Components/Customer/GroupChat.jsx:54-65 | within a group, the client's readers and the store's readers of each message are the same set |
| GroupChat.ReplaceGroup | FrontEnd/vite-project/src/Components/Customer/GroupChat.jsx:239-241 | the group with that id is replaced and every other is kept |
| GroupChat.AcceptedUnlessCreatorBlank | BackEnd/Routes/chatRoutes.js:33-38 | for a named form with normal, non-empty members, the schema accepts the group exactly when the creator's address is not blank once normalised |
| GroupChat.GroupStoredMembers | BackEnd/Routes/chatRoutes.js:33-36 | the group stored for such a form has the typed name and holds exactly the members and the creator's normal form; none twice when the creator is already in normal form |
| GroupChat.StoreGroup | FrontEnd/vite-project/src/Components/Customer/GroupChat.jsx:143-153 | for any creator: nothing stored when the creator's address is blank once normalised, otherwise exactly `NewGroup` of the deduplicated raw list appended under the next id, with the typed name and exactly the members and the creator's normal form; none twice when the creator is in normal form |
| GroupChat.GroupChatState.constructor | FrontEnd/vite-project/src/Components/Customer/GroupChat.jsx:6-21 | the current user is resolved; every list and input is empty |
| GroupChat.GroupChatState.LoadGroups | FrontEnd/vite-project/src/Components/Customer/GroupChat.jsx:91-105 | a successful answer becomes the group list |
| GroupChat.GroupChatState.SelectGroup | FrontEnd/vite-project/src/Components/Customer/GroupChat.jsx:108-125 | the group is selected and a successful answer becomes its messages |
| GroupChat.GroupChatState.TypeGroupName | FrontEnd/vite-project/src/Components/Customer/GroupChat.jsx:265 | the group name becomes the typed text |
| GroupChat.GroupChatState.TypeGroupMembers | FrontEnd/vite-project/src/Components/Customer/GroupChat.jsx:272 | the member text becomes the typed text |
| GroupChat.GroupChatState.TypeMessage | FrontEnd/vite-project/src/Components/Customer/GroupChat.jsx:368 | the message becomes the typed text |
| GroupChat.GroupChatState.TypeNewMemberEmail | FrontEnd/vite-project/src/Components/Customer/GroupChat.jsx:397 | the new member's e-mail becomes the typed text |
| GroupChat.GroupChatState.OpenAddMember | FrontEnd/vite-project/src/Components/Customer/GroupChat.jsx:318 | the add-member modal opens |
| GroupChat.GroupChatState.CancelAddMember | FrontEnd/vite-project/src/Components/Customer/GroupChat.jsx:409-412 | the modal closes and the error is cleared |
| GroupChat.GroupChatState.CreateGroup | FrontEnd/vite-project/src/Components/Customer/GroupChat.jsx:132-163 | a request is sent iff the trimmed name is non-empty and some member parses; a refused form shows the error and stores nothing; a sent form is cleared and the store changes exactly as the request of `StoreGroup` says, for any user: unless blank once normalised, one group with exactly the parsed members and the user's normal form, none twice for a user in normal form |
| GroupChat.GroupChatState.SubmitGroup | FrontEnd/vite-project/src/Components/Customer/GroupChat.jsx:143-157 | the request of a valid form changes the store exactly as `StoreGroup` says, for any user, and clears the form |
| GroupChat.GroupChatState.SendMessage | FrontEnd/vite-project/src/Components/Customer/GroupChat.jsx:165-187 | sent iff a group is selected and the trimmed message is non-empty; then exactly one message from the user is stored and the box is cleared; otherwise nothing changes |
| GroupChat.GroupChatState.MarkMessagesAsRead | FrontEnd/vite-project/src/Components/Customer/GroupChat.jsx:189-216 | a request is sent iff a group is selected and some message is unread, and the store marks exactly those messages read |
| GroupChat.GroupChatState.AddMember | FrontEnd/vite-project/src/Components/Customer/GroupChat.jsx:218-250 | without a group or a trimmed e-mail nothing changes; the member is added exactly when the group is stored and the normalised e-mail is not yet among its members; a success appends the normalised e-mail to that stored group, replaces it in the list and the selection, and closes the modal; a refusal changes no list and shows an error |
| GroupChat.GroupChatState.ReceiveMessage | FrontEnd/vite-project/src/Components/Customer/GroupChat.jsx:48-51 | the received message is appended |
| GroupChat.GroupChatState.MessagesRead | FrontEnd/vite-project/src/Components/Customer/GroupChat.jsx:53-66 | the messages become the client-side marked-read list |
| GroupChat.GroupChatState.GroupCreated | FrontEnd/vite-project/src/Components/Customer/GroupChat.jsx:68-72 | the group is appended iff the user is a member |
| GroupChat.GroupChatState.MemberAdded | FrontEnd/vite-project/src/Components/Customer/GroupChat.jsx:74-83 | for a member, the group is replaced in the list and in the selection when selected; otherwise nothing changes |
| AdminLists.Search | FrontEnd/vite-project/src/Components/Admin/Renters.jsx:25-30 | exactly the accounts whose lower-cased e-mail contains the lower-cased query |
| AdminLists.SearchAppend | FrontEnd/vite-project/src/Components/Admin/Renters.jsx:26-28 | searching keeps the listed order |
| AdminLists.EmptyQueryKeepsAll | FrontEnd/vite-project/src/Components/Admin/Renters.jsx:26-28 | an empty query keeps every account |
| AdminLists.SearchIdempotent | FrontEnd/vite-project/src/Components/Admin/Renters.jsx:25-30 | searching twice for one query equals searching once |
| AdminLists.SearchRemoveCommute | FrontEnd/vite-project/src/Components/Admin/Renters.jsx:32-40 | deleting from the search result equals searching the list after the delete |
| AdminLists.AccountListPage.constructor | FrontEnd/vite-project/src/Components/Admin/Customers.jsx:7-9 | both lists and the query are empty |
| AdminLists.AccountListPage.Fetch | FrontEnd/vite-project/src/Components/Admin/Customers.jsx:15-23 | a success sets both the full and the shown list to the answer; a failure keeps both; the shown list is always a search of the full list |
| AdminLists.AccountListPage.SetSearchQuery | FrontEnd/vite-project/src/Components/Admin/Customers.jsx:65 | the query changes and the shown list waits for the button |
| AdminLists.AccountListPage.HandleSearch | FrontEnd/vite-project/src/Components/Admin/Customers.jsx:25-30 | the shown list becomes the full list searched for the query |
| AdminLists.AccountListPage.Delete | FrontEnd/vite-project/src/Components/Admin/Customers.jsx:32-40 | after a successful delete that id leaves both lists and every other entry stays; otherwise nothing changes |
| Comparison.Field | FrontEnd/vite-project/src/Components/Customer/Comparison.jsx:20-22 | the k-th field when the line has one, otherwise undefined |
| Comparison.RowRoundTrip | FrontEnd/vite-project/src/Components/Customer/Comparison.jsx:18-23 | a line with at least three commas is rebuilt exactly from its record, whose first three fields hold no comma |
| Comparison.FormatRoundTrip | FrontEnd/vite-project/src/Components/Customer/Comparison.jsx:18-23 | a record whose first three fields hold no comma is parsed back from its line, whatever its features |
| Comparison.DataRows | FrontEnd/vite-project/src/Components/Customer/Comparison.jsx:16-17 | the data lines hold no line break, and the header followed by them rebuilds the trimmed text |
| Comparison.ParseCsv | FrontEnd/vite-project/src/Components/Customer/Comparison.jsx:16-25 | one record per data line, each the parse of that line, in file order |
| Comparison.DataRowsOfFile | FrontEnd/vite-project/src/Components/Customer/Comparison.jsx:16-17 | a header and lines joined by line breaks give exactly those lines back |
| Comparison.BlankFileHasNoRecords | FrontEnd/vite-project/src/Components/Customer/Comparison.jsx:16-17 | an empty or blank file has no records |
| Comparison.FindCar | FrontEnd/vite-project/src/Components/Customer/Comparison.jsx:31 | the first record whose name equals the input ignoring case, and none exactly when no name does |
| Comparison.FindCarIgnoresCase | FrontEnd/vite-project/src/Components/Customer/Comparison.jsx:31 | the capitals in the input do not change the car found |
| Comparison.FindCarSameKey | FrontEnd/vite-project/src/Components/Customer/Comparison.jsx:31 | inputs equal ignoring case find the same car |
| Comparison.Names | FrontEnd/vite-project/src/Components/Customer/Comparison.jsx:35 | the name of every record, in order |
| Comparison.CarNamesListEachNameOnce | FrontEnd/vite-project/src/Components/Customer/Comparison.jsx:35 | the suggestions list every record's name exactly once, in order of first appearance |
| Comparison.ComparisonPage.constructor | FrontEnd/vite-project/src/Components/Customer/Comparison.jsx:6-10 | no data, empty inputs, no cars |
| Comparison.ComparisonPage.Load | FrontEnd/vite-project/src/Components/Customer/Comparison.jsx:12-28 | the data becomes the parsed file |
| Comparison.ComparisonPage.SetCar1Name | FrontEnd/vite-project/src/Components/Customer/Comparison.jsx:51 | the first input becomes the typed text |
| Comparison.ComparisonPage.SetCar2Name | FrontEnd/vite-project/src/Components/Customer/Comparison.jsx:61 | the second input becomes the typed text |
| Comparison.ComparisonPage.CompareCars | FrontEnd/vite-project/src/Components/Customer/Comparison.jsx:30-33 | each input picks its own car; the comparison is shown iff both inputs name a car |
| Collection.IndexOf | BackEnd/Controller/bookingController.js:126-130 | the position of the first document with that id, and none exactly when no document has it |
| Collection.Modify | BackEnd/Controller/bookingController.js:126-130 | only the documents with that id are updated; the others and the order are kept |
| Collection.ModifyIdempotent | BackEnd/Controller/vehicleController.js:24-28 | an idempotent update applied twice equals applying it once |
| Collection.ModifyInvolution | BackEnd/Controller/RenterController.js:39-40 | a self-inverse update applied twice restores the collection |
| Collection.Remove | BackEnd/Controller/vehicleController.js:117 | every document without that id stays, and none with it remains |
| Collection.RemoveKeepsIdsUnique | BackEnd/Controller/vehicleController.js:117 | removing keeps ids unique |
| Collection.RemoveAbsent | BackEnd/Controller/vehicleController.js:117 | removing an absent id changes nothing |
| Collection.RemoveIsFilter | FrontEnd/vite-project/src/Components/Admin/Customers.jsx:35-36 | the store's removal equals the client's filter on the id |
| Collection.LookupAfterInsert | BackEnd/Controller/bookingController.js:51 | an inserted document is found under its fresh id, and no other lookup changes |
| Collection.LookupAfterRemove | BackEnd/Controller/vehicleController.js:117 | a removed id is not found, and no other lookup changes |
| Collection.Table.FindById | BackEnd/Controller/vehicleController.js:161 | found iff some document has the id, and then that document is stored |
| Collection.Table.Insert | BackEnd/Controller/vehicleController.js:10-11 | appends the document under a fresh id |
| Collection.Table.FindByIdAndUpdate | BackEnd/Controller/vehicleController.js:24-28 | updates the documents with that id and answers the updated value, or none with no change |
| Collection.Table.FindByIdAndDelete | BackEnd/Controller/vehicleController.js:117 | removes the id and answers what was stored under it |
| Lists.Filter | FrontEnd/vite-project/src/Components/Customer/Dashboard.jsx:61-63 | exactly the elements that satisfy the predicate |
| Lists.FilterAppend | FrontEnd/vite-project/src/Components/Customer/Dashboard.jsx:61-63 | filtering keeps the order: a concatenation filters part by part |
| Lists.FilterKeepsAll | FrontEnd/vite-project/src/Components/Customer/Dashboard.jsx:61-63 | a filter every element passes keeps the list |
| Lists.FilterIdempotent | FrontEnd/vite-project/src/Components/Customer/Dashboard.jsx:61-63 | filtering twice equals filtering once |
| Lists.Distinct | BackEnd/Routes/chatRoutes.js:35 | the same elements, none twice |
| Lists.DistinctOfDistinct | BackEnd/Routes/chatRoutes.js:35 | a list without duplicates is kept |
| Lists.FirstIndex | FrontEnd/vite-project/src/Components/Customer/Comparison.jsx:35 | the first position of an element |
| Lists.FirstIndexAppend | FrontEnd/vite-project/src/Components/Customer/Comparison.jsx:35 | appending does not move a first occurrence |
| Lists.DistinctInFirstOccurrenceOrder | BackEnd/Routes/chatRoutes.js:35 | the distinct elements come in order of first occurrence |
| Text.LowerChar | BackEnd/Model/Group.js:12 | capital ASCII letters become small, every other character is kept |
| Text.Lower | BackEnd/Model/Group.js:12 | each character is lower-cased in place |
| Text.LowerIdempotent | BackEnd/Model/Group.js:12 | lower-casing twice equals lower-casing once |
| Text.TrimStart | BackEnd/Model/Group.js:11 | only leading white space is cut, and the result does not start with it |
| Text.TrimStartIsSuffix | BackEnd/Model/Group.js:11 | the front-trimmed text is a suffix of the text |
| Text.TrimEnd | BackEnd/Model/Group.js:11 | only trailing white space is cut, and the result does not end with it |
| Text.TrimEndIsPrefix | BackEnd/Model/Group.js:11 | the end-trimmed text is a prefix of the text |
| Text.Trim | BackEnd/Model/Group.js:11 | never longer than the text; what it cuts is stated by the two lemmas below |
| Text.TrimEndsNotSpace | BackEnd/Model/Group.js:11 | a non-empty trimmed text starts and ends with no white space |
| Text.TrimCutsOnlySpace | BackEnd/Model/Group.js:11 | the trimmed text is a slice of the text with only white space around it |
| Text.TrimOfTrimmed | BackEnd/Model/Group.js:11 | a text without surrounding white space is kept by trimming |
| Text.Contains | FrontEnd/vite-project/src/Components/Admin/Customers.jsx:27 | true iff the query occurs at some position |
| Text.Split | FrontEnd/vite-project/src/Components/Customer/Comparison.jsx:18 | at least one piece, none holding the separator, and joining them rebuilds the text |
| Text.SplitOfJoin | FrontEnd/vite-project/src/Components/Customer/Comparison.jsx:18 | splitting joined separator-free pieces gives the pieces back |
| Text.SplitOfSeparatorFree | FrontEnd/vite-project/src/Components/Customer/Comparison.jsx:18 | a text without the separator splits into itself |
| Text.StripTrailingSlashes | BackEnd/Controller/vehicleController.js:49 | only trailing slashes are cut |
| Text.LastSegment | BackEnd/Controller/vehicleController.js:49 | the suffix after the last slash |
| Text.Basename | BackEnd/Controller/vehicleController.js:49 | the base name holds no slash |
| Text.BasenameOfUpload | BackEnd/Controller/vehicleController.js:49 | the base name of dir/file is file |
| Text.LastSegmentOfSuffix | BackEnd/Controller/vehicleController.js:49 | after a slash, a slash-free suffix is the last segment |
| Text.EmailHasNoSpace | FrontEnd/vite-project/src/Components/Customer/GroupChat.jsx:137 | a text matching the e-mail pattern holds no white space |

## Left out

- Sockets: the broadcasts of the chat routes and the page's socket connection. The
  socket events the page receives are modelled as methods (`ReceiveMessage`,
  `MessagesRead`, `GroupCreated`, `MemberAdded`).
- Authentication, passwords, hashing and tokens. The signed-in user's e-mail is a
  parameter.
- HTTP transport, multer uploads and the derivation of the base URL from the request.
  The uploaded path and the base URL are parameters.
- Concurrency: every request runs as one atomic step. The race between the duplicate
  check and the insert of `rateVehicle` is not modelled.
- Floating-point behaviour: prices and averages are exact reals, and `parseFloat` of
  the maximum price is a given real.
- Regular expressions: search terms are literal, case-insensitive substrings, and the
  e-mail pattern is a hand-written predicate (`Text.IsEmail`).
- Case folding and white space are ASCII only.
- Malformed ids: a cast failure of Mongoose (a 500 answer) is not modelled; ids are
  natural numbers.
- `Model/Message.js` and `Model/Rating.js` are not part of this model; their fields
  are the ones the handlers read and write.
- The notification banners' automatic hiding after five seconds, loading flags other
  than the booking-request list's, and all rendering.
- GroupChat.GroupChatState.LoadGroups: on an error answer the page stores the error
  object as its group list; the model keeps the previous list.
- GroupChat.GroupChatState.SelectGroup: the same for an error answer to the messages
  request.
- VehicleRatingForm.VehicleRatingState.Submit: the message shown when the server
  cannot be reached is not modelled; every request reaches the model's server.
- ConfirmedBookings.ConfirmedBookingsPage.Fetch: the refetch that runs after every
  render (its effect depends on a function rebuilt at each render) is modelled as one
  fetch.
- ConfirmedBookings.ConfirmedBookingsPage.SubmitRating: `parseFloat` of the rating
  is the integer star itself.
- ReservePopup.ReserveForm.Submit: models `handleSubmit` only. The browser's `required`
  validation runs first and is not modelled: a form without both dates, the licence
  and ID images, or (for online payment) the account number and receipt never reaches
  `handleSubmit`. The licence and ID file inputs are not modelled at all.
- AdminLists.AccountListPage: the status toggle only asks the server and refetches,
  which is `Fetch` with the new answer.
- RenterController.ToggleRenterStatus: modelled as a find-and-update; the separate
  read and save of the source make no difference in a sequential model.
- BookingController.GetUserBookings: a request without `userEmail` is refused with 400,
  as the code does; the undefined-filter query that would follow is unreachable.
- Dashboard: the vehicle popup, and the booking request behind `RefreshAfterBooking`
  (its multipart upload is `BookingController.CreateBooking`).
- Comparison: fetching the CSV file, and splitting the features for display.
- Estimation, reports, navigation bars, login screens, the renter and administrator
  dashboards, and the component tests.
