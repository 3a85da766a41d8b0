# CRM domain core in Dafny

A model of the domain logic of a Spring Boot CRM. It covers:

- the opportunity sales pipeline: stage advance, probability table, closing, weighted value and overdue check;
- the user account lockout: failed-login counter, 30-minute lock, reset on success, and the locked and active predicates;
- lead conversion;
- line-item valuation with discount and tax, and the product profit margin;
- a customer's contacts with their back-references, and its total opportunity value;
- the activity lifecycle;
- authority resolution at login and the client-address rule of the login-success handler;
- the dashboard's recent and upcoming activity lists and its per-stage pipeline counts.

Entities whose fields the application updates in place are classes:
`Opportunity`, `User`, `Lead`, `Customer`, `Contact` and `Activity`. Their
mutators are methods with field-level `modifies` frames, so each contract also
says what the method leaves alone. Pure computations are functions with lemmas
about them.

Representation choices:

- Java `null` is `Option` (or a nullable class reference `C?`).
- A thrown exception is the `Err` side of a `Result`, or `None` where the
  result is already an `Option` (the opportunity-value sum and `valueOf`).
- `BigDecimal` is `real`. Every division the code performs is either by 100,
  which is exact, or an explicit HALF_UP rounding to four decimals, which
  `Products.RoundHalfUp` models.
- A Java `int`/`Integer` is `Int32` (the login counter, a line item's quantity,
  an opportunity's nullable `probability` as `Option<Int32>`), and
  `failedLoginAttempts++` wraps.
- `LocalDate` is a day number and `LocalDateTime` a minute number. The day of
  a moment is the floor of the minute number divided by 1440.
- Every read of the clock becomes a `today` or `now` parameter.
- Repository query results become input sequences or maps that hold the
  non-deleted rows, in the order the database returns them.

The model follows the code as written:

- `moveToNextStage` raises no error on a terminal stage. A stage of null or
  CLOSED_LOST leaves the opportunity untouched. CLOSED_WON, which is not the
  last constant, advances to CLOSED_LOST, which sets status LOST.
- `convertToCustomer` has no already-converted guard. Converting again
  overwrites the date and the references.
- The lock is re-armed by every failed login from the fifth on. Only a
  successful login resets the counter.
- Line-item amounts are exact: there is no intermediate rounding. The margin
  is rounded HALF_UP to four decimals of the ratio, then multiplied by 100.

Module layout: `Base` (Option, Result, time, Int32), `Opportunities`, `Users`,
`Leads`, `Customers`, `Activities`, `LineItems`, `Products`,
`UserDetailsService`, `LoginSuccess`, `Sorting` (a stable sort by integer key,
plus truncation) and `Dashboard`.

## Model

| member | source | states |
|---|---|---|
| Opportunities.Ordinal | src/main/java/com/cengiz/crm/enums/OpportunityStage.java:3-11 | the stage's position in declaration order indexes `Stages` back to the same stage |
| Opportunities.OrdinalOfPosition | src/main/java/com/cengiz/crm/enums/OpportunityStage.java:3-11 | each position of `values()` holds the stage of that ordinal, so no stage is listed twice |
| Opportunities.StageName | src/main/java/com/cengiz/crm/enums/OpportunityStage.java:3-11 | `valueOf` reads the name back to the same stage, so distinct stages have distinct names |
| Opportunities.StageNamed | src/main/java/com/cengiz/crm/enums/OpportunityStage.java:3-11 | `valueOf`; it inverts StageName, as StageName's contract states |
| Opportunities.Successor | src/main/java/com/cengiz/crm/entity/Opportunity.java:113-117 | the next stage is the one of the next ordinal; only the last stage (CLOSED_LOST) has none |
| Opportunities.StageProbability | src/main/java/com/cengiz/crm/entity/Opportunity.java:126-154 | the table probability is within 0..100; it is 100 exactly for CLOSED_WON and 0 exactly for CLOSED_LOST |
| Opportunities.ClosingStatus | src/main/java/com/cengiz/crm/entity/Opportunity.java:143-151 | only CLOSED_WON forces WON and only CLOSED_LOST forces LOST; no stage forces OPEN |
| Opportunities.ProbabilityRisesWhileOpen | src/main/java/com/cengiz/crm/entity/Opportunity.java:128-142 | advancing between non-closed stages strictly raises the probability |
| Opportunities.Opportunity.constructor | src/main/java/com/cengiz/crm/entity/Opportunity.java:45-78 | defaults are PROSPECTING, OPEN and a null probability, so the weighted value starts at 0 |
| Opportunities.Opportunity.WeightedValue | src/main/java/com/cengiz/crm/entity/Opportunity.java:92-97 | 0 when value or probability is null; otherwise result × 100 = value × probability; within [0, value] for 0 ≤ p ≤ 100 and value ≥ 0 |
| Opportunities.Opportunity.IsOverdue | src/main/java/com/cengiz/crm/entity/Opportunity.java:103-107 | holds iff the expected close date is set and before today and the status is OPEN |
| Opportunities.Opportunity.OverdueStaysOverdue | src/main/java/com/cengiz/crm/entity/Opportunity.java:103-107 | a deal overdue on one day stays overdue on every later day while its state is unchanged |
| Opportunities.Opportunity.MoveToNextStage | src/main/java/com/cengiz/crm/entity/Opportunity.java:112-121 | a null or last stage changes nothing; otherwise the stage moves to the next ordinal and the probability to its table value; status and close date change only when a closed stage is entered; a deal closed as won weighs its full value, and one closed as lost weighs 0 and is not overdue |
| Opportunities.Opportunity.UpdateProbabilityByStage | src/main/java/com/cengiz/crm/entity/Opportunity.java:126-154 | sets the probability from the table; a closed stage also sets its status and today's close date; other stages keep status and close date |
| Users.LockAfterFailure | src/main/java/com/cengiz/crm/entity/User.java:147-149 | below five failures the lock is kept; from five on it is re-armed to now + 30 minutes |
| Users.FailuresFromFresh | src/main/java/com/cengiz/crm/entity/User.java:145-150 | k failures on a fresh account give counter k; the lock is set iff k ≥ 5, ends 30 minutes after the last failure, holds at it, and lapses on its own afterwards |
| Users.AfterFailures | src/main/java/com/cengiz/crm/entity/User.java:145-150 | a run of recordFailedLogin calls; one step agrees with RecordFailedLogin, and runs from a fresh account are described by FailuresFromFresh |
| Base.Increment | src/main/java/com/cengiz/crm/entity/User.java:146 | `++` on a Java int: adds one, and wraps from the largest int to the smallest |
| Users.User.constructor | src/main/java/com/cengiz/crm/entity/User.java:67-98 | defaults are ACTIVE, zero failures, no lock and no permissions |
| Users.User.FullName | src/main/java/com/cengiz/crm/entity/User.java:112-114 | the first name, one space, then the last name |
| Users.User.IsAccountLocked | src/main/java/com/cengiz/crm/entity/User.java:120-122 | holds iff a lock end is set and strictly after now |
| Users.User.IsActive | src/main/java/com/cengiz/crm/entity/User.java:128-130 | holds iff the status is ACTIVE and the account is not locked now |
| Users.User.UnlockedStaysUnlocked | src/main/java/com/cengiz/crm/entity/User.java:120-122 | an account not locked at t is not locked at any later moment: the lock lapses by time alone |
| Users.User.RecordSuccessfulLogin | src/main/java/com/cengiz/crm/entity/User.java:135-140 | stamps the login time and address, clears the counter and the lock; afterwards the account is locked at no time |
| Users.User.RecordFailedLogin | src/main/java/com/cengiz/crm/entity/User.java:145-150 | increments the counter and applies the lock rule; agrees with one step of `AfterFailures`; from five failures on the account is locked now |
| Leads.Lead.constructor | src/main/java/com/cengiz/crm/entity/Lead.java:79-121 | defaults are NEW and not converted, with no conversion date or references |
| Leads.Lead.FullName | src/main/java/com/cengiz/crm/entity/Lead.java:134-136 | the first name, one space, then the last name |
| Leads.Lead.IsQualified | src/main/java/com/cengiz/crm/entity/Lead.java:153-155 | holds iff the status is QUALIFIED |
| Leads.Lead.ConvertToCustomer | src/main/java/com/cengiz/crm/entity/Lead.java:141-147 | sets the converted flag, today's date, both references and CONVERTED status and touches no other field; the lead is then not qualified |
| Leads.Lead.ConvertTwice | src/main/java/com/cengiz/crm/entity/Lead.java:141-147 | with no guard, a second conversion with the same arguments and day leaves the same state as the first |
| LineItems.NewLineItem | src/main/java/com/cengiz/crm/entity/OpportunityProduct.java:42-48 | a new line item has zero discount and zero tax |
| LineItems.Subtotal | src/main/java/com/cengiz/crm/entity/OpportunityProduct.java:57-59 | getSubtotal, unit price times quantity; its properties are stated in TotalClosedForm, TotalBounds and WorkedExample |
| LineItems.DiscountAmount | src/main/java/com/cengiz/crm/entity/OpportunityProduct.java:65-67 | getDiscountAmount; its properties are stated in TotalBounds, DefaultsAddNothing and WorkedExample |
| LineItems.TotalAfterDiscount | src/main/java/com/cengiz/crm/entity/OpportunityProduct.java:73-75 | getTotalAfterDiscount; its properties are stated in TotalClosedForm and TotalBounds |
| LineItems.TaxAmount | src/main/java/com/cengiz/crm/entity/OpportunityProduct.java:81-83 | getTaxAmount; its properties are stated in TotalBounds, DefaultsAddNothing and WorkedExample |
| LineItems.Total | src/main/java/com/cengiz/crm/entity/OpportunityProduct.java:89-91 | getTotal; its properties are stated in TotalClosedForm, TotalBounds and DefaultsAddNothing |
| LineItems.TotalClosedForm | src/main/java/com/cengiz/crm/entity/OpportunityProduct.java:57-91 | the getter chain equals subtotal × (1 − discount/100) × (1 + tax/100) |
| LineItems.DefaultsAddNothing | src/main/java/com/cengiz/crm/entity/OpportunityProduct.java:42-91 | with the default discount and tax, the discount and tax amounts are 0 and the total is the subtotal |
| LineItems.TotalBounds | src/main/java/com/cengiz/crm/entity/OpportunityProduct.java:57-91 | for non-negative inputs and a discount of at most 100%: 0 ≤ discount ≤ subtotal, 0 ≤ after-discount ≤ subtotal, tax ≥ 0 and total ≥ after-discount |
| LineItems.WorkedExample | src/main/java/com/cengiz/crm/entity/OpportunityProduct.java:57-91 | 3 × 100 at 10% discount and 8% tax gives 300, 30, 270, 21.6 and 291.6 |
| Products.RoundHalfUp | src/main/java/com/cengiz/crm/entity/Product.java:76 | the result is within 0.5 of x; ties go away from zero |
| Products.ProfitMargin | src/main/java/com/cengiz/crm/entity/Product.java:71-78 | getProfitMargin; its properties are stated in MarginGuard, MarginPrecision and MarginSign |
| Products.MarginGuard | src/main/java/com/cengiz/crm/entity/Product.java:72-74 | a null price or a zero cost gives margin 0 |
| Products.MarginPrecision | src/main/java/com/cengiz/crm/entity/Product.java:75-77 | the margin is a whole number of hundredths and lies within 0.005 of (unit − cost)/cost × 100 |
| Products.MarginSign | src/main/java/com/cengiz/crm/entity/Product.java:75-77 | selling at cost gives 0; selling at or above a positive cost gives ≥ 0; 150 over a cost of 100 gives 50 |
| Customers.SumValuesRemove | src/main/java/com/cengiz/crm/entity/Customer.java:154-158 | the reduce over the set does not depend on the order it is walked in |
| Customers.SumValues | src/main/java/com/cengiz/crm/entity/Customer.java:154-158 | the reduce over the opportunities' values; its properties are stated in SumValuesRemove, SumValuesAdd and SumValuesDefined |
| Customers.SumValuesAdd | src/main/java/com/cengiz/crm/entity/Customer.java:154-158 | the total of no opportunities is 0, and adding an opportunity adds its value |
| Customers.SumValuesDefined | src/main/java/com/cengiz/crm/entity/Customer.java:154-158 | the total exists iff every value is non-null, and it is non-negative when every value is |
| Customers.Customer.constructor | src/main/java/com/cengiz/crm/entity/Customer.java:121-128 | a new customer has no contacts and no opportunities, and its total is 0 |
| Customers.Customer.AddContact | src/main/java/com/cengiz/crm/entity/Customer.java:137-140 | the contact joins the set and points back at this customer; re-adding leaves the set as it was; nothing else changes |
| Customers.Customer.RemoveContact | src/main/java/com/cengiz/crm/entity/Customer.java:145-148 | the contact leaves the set and its back-reference is cleared, even when it was not in the set; nothing else changes |
| Customers.Customer.AddThenRemoveContact | src/main/java/com/cengiz/crm/entity/Customer.java:137-148 | adding and then removing a contact that was absent restores the contact set |
| Customers.Customer.TotalOpportunityValue | src/main/java/com/cengiz/crm/entity/Customer.java:154-158 | 0 for no opportunities; defined iff no value is null; non-negative for non-negative values |
| Activities.Activity.constructor | src/main/java/com/cengiz/crm/entity/Activity.java:41-87 | defaults are PLANNED, MEDIUM and no reminder sent |
| Activities.Activity.Complete | src/main/java/com/cengiz/crm/entity/Activity.java:92-96 | sets COMPLETED, the completion time and the outcome and nothing else; afterwards the activity is overdue at no time |
| Activities.Activity.IsOverdue | src/main/java/com/cengiz/crm/entity/Activity.java:102-107 | holds iff the due moment is set and before now and the status is neither COMPLETED nor CANCELLED |
| Activities.Activity.OverdueStaysOverdue | src/main/java/com/cengiz/crm/entity/Activity.java:102-107 | an activity overdue at one moment stays overdue at every later moment while its state is unchanged |
| Activities.Activity.IsDueToday | src/main/java/com/cengiz/crm/entity/Activity.java:113-118 | holds iff the due moment is set and falls on now's calendar day, whatever the status |
| Base.DateOf | src/main/java/com/cengiz/crm/entity/Activity.java:117 | a moment's day is the day whose 1440 minutes contain it |
| UserDetailsService.RoleAuthority | src/main/java/com/cengiz/crm/security/CustomUserDetailsService.java:51 | the token is "ROLE_" followed by exactly the role's name |
| Users.RoleName | src/main/java/com/cengiz/crm/enums/UserRole.java:6-11 | the role's `name()`, never empty; distinct roles give distinct tokens by RoleAuthorityInjective |
| UserDetailsService.RoleAuthorityInjective | src/main/java/com/cengiz/crm/enums/UserRole.java:6-11 | different roles grant different authorities |
| UserDetailsService.ManagerExample | src/main/java/com/cengiz/crm/security/CustomUserDetailsService.java:47-57 | MANAGER with permission "reports.export" holds exactly ROLE_MANAGER and reports.export |
| UserDetailsService.GetAuthorities | src/main/java/com/cengiz/crm/security/CustomUserDetailsService.java:47-57 | the role authority first, then each permission code once; length 1 + number of permissions; the token set is the role authority plus the codes |
| UserDetailsService.LoadUserByUsername | src/main/java/com/cengiz/crm/security/CustomUserDetailsService.java:29-45 | an unknown e-mail and an inactive or locked user each fail with their message; otherwise the details carry e-mail, password hash, four true flags and, as a set, exactly the role authority and the permission codes |
| LoginSuccess.FirstField | src/main/java/com/cengiz/crm/security/LoginSuccessHandler.java:52 | a reference definition: a comma-free prefix of the header that ends at its first comma |
| LoginSuccess.Split | src/main/java/com/cengiz/crm/security/LoginSuccessHandler.java:52 | `String.split(",")` with trailing empty fields dropped; its first field is related to FirstField in ClientIpFromHeader |
| LoginSuccess.GetClientIp | src/main/java/com/cengiz/crm/security/LoginSuccessHandler.java:47-53 | getClientIP; its behaviour for every header is stated in ClientIpFromHeader |
| LoginSuccess.ClientIpFromHeader | src/main/java/com/cengiz/crm/security/LoginSuccessHandler.java:47-53 | no header gives the remote address; a non-empty header of commas only throws; any other header gives its text before the first comma, untrimmed ("" for an empty header) |
| LoginSuccess.OnAuthenticationSuccess | src/main/java/com/cengiz/crm/security/LoginSuccessHandler.java:29-45 | if the address throws, no user changes; otherwise the result redirects to the dashboard and the matching user gets the login recorded; the frame allows only the four login fields of any user to change, and every other user is unchanged |
| Sorting.Take | src/main/java/com/cengiz/crm/service/DashboardService.java:71 | exactly min(n, size) rows, a prefix of the input; all rows when there are at most n |
| Sorting.SortByKey | src/main/java/com/cengiz/crm/service/DashboardService.java:70 | Stream.sorted with a key comparator; sorted, a permutation and stable by SortByKeyProperties |
| Sorting.SortByKeyProperties | src/main/java/com/cengiz/crm/service/DashboardService.java:69-70 | the sort is ascending, is a permutation of its input, and keeps rows with equal keys in input order |
| Sorting.SmallestKeys | src/main/java/com/cengiz/crm/service/DashboardService.java:69-72 | sort-then-limit keeps min(n, size) rows, ascending, each input row at most as often as the input has it, none of them beaten by a row left out, rows of equal key as the first ones of that key in input order, and all rows when they fit |
| Dashboard.NewestSelection | src/main/java/com/cengiz/crm/service/DashboardService.java:68-73 | the selection is newest first, drawn from the input, of size min(limit, size), and no activity left out is newer than one kept; how often each is kept is in NewestCounts |
| Dashboard.NewestCounts | src/main/java/com/cengiz/crm/service/DashboardService.java:69-72 | the selection takes no activity more often than the input holds it, and all of them as often when they fit |
| Dashboard.NewestTies | src/main/java/com/cengiz/crm/service/DashboardService.java:69-71 | activities created at the same moment are kept in input order, and they are the first ones of that moment |
| Dashboard.RecentActivities | src/main/java/com/cengiz/crm/service/DashboardService.java:68-73 | a negative limit throws; otherwise min(limit, size) activities taken from the input without repeats beyond its own, newest first, none left out newer than one kept, equal creation times in input order, all of them when they fit |
| Dashboard.DueBetween | src/main/java/com/cengiz/crm/repository/ActivityRepository.java:29-32 | keeps exactly the activities whose due moment lies in the closed window, each keyed by that moment; multiplicity in `DueBetweenCounts`, order in `DueBetweenKeepsOrder` |
| Dashboard.DueBetweenCounts | src/main/java/com/cengiz/crm/repository/ActivityRepository.java:29-32 | each activity due in the window is returned exactly as often as the list holds it, any other not at all |
| Dashboard.DueBetweenKeepsOrder | src/main/java/com/cengiz/crm/repository/ActivityRepository.java:29-32 | for each moment of the window, the activities due then are returned in the order they were found |
| Dashboard.SoonestSelection | src/main/java/com/cengiz/crm/service/DashboardService.java:75-82 | the selection is due in the window, soonest first, of size min(limit, window size), and no activity in the window left out is due sooner than one kept; how often each is kept is in SoonestCounts |
| Dashboard.SoonestCounts | src/main/java/com/cengiz/crm/service/DashboardService.java:78-81 | the selection takes no activity more often than the input holds it, and every window activity as often as listed when the window fits |
| Dashboard.SoonestTies | src/main/java/com/cengiz/crm/service/DashboardService.java:78-80 | activities due at the same moment are kept in input order, and they are the first ones of that moment |
| Dashboard.UpcomingActivities | src/main/java/com/cengiz/crm/service/DashboardService.java:75-82 | a negative limit throws; otherwise min(limit, window size) activities due between now and now + 7 days inclusive, a sub-multiset of the input, soonest first, none skipped for a later one, equal due moments in input order, all of them when they fit |
| Dashboard.GetPipelineData | src/main/java/com/cengiz/crm/service/DashboardService.java:84-91 | exactly one key per stage name (seven keys), each holding the number of opportunities in that stage |
| Dashboard.PipelineCountsEveryOpportunity | src/main/java/com/cengiz/crm/service/DashboardService.java:84-91 | when every opportunity has a stage, the counts add up to the number of opportunities |

## Left out

- HTTP and persistence: the redirect is returned as a path, and `userRepository.save` and the log line are not modelled. Repositories are inputs, and `UserDetailsService` and `LoginSuccess` take a map from e-mail to the non-deleted user.
- BCrypt and password checking: the stored password hash is an opaque string.
- `getDashboardStats`: it only copies repository counts into a map.
- Clock reads are parameters. Time below the minute is not modelled, so `isBefore`, `isAfter` and BETWEEN compare whole minutes.
- Enum constants the code never names (other lead, activity and user statuses, priorities) are kept by name in a catch-all constructor.
- `Permission` is modelled by its code, so two permissions with the same code count once.
- Opportunity's customer, owner, products and activities references, and the entities' audit fields other than Activity's `createdAt`, which the recent-activities list sorts by: no modelled operation reads them.
- `BaseEntity` equality: set membership is object identity.
- Null fields the code would dereference are not modelled: a null role, a null quantity, unit price, discount or tax rate, a null `failedLoginAttempts` and a null `createdAt`.
- Users.User.FullName, Leads.Lead.FullName: a null first or last name, which Java prints as "null", is not modelled, because names are required fields.
- Dashboard.UpcomingActivities: the order of the BETWEEN query's rows is taken as the input order; the database does not fix it.
- Concurrency: concurrent logins and transaction isolation.
- UserDetailsService.LoadUserByUsername: the details hold the authorities as a set; the library's iteration order for it (sorted by authority name) is not modelled, and the list order `getAuthorities` builds is stated on `GetAuthorities` only.
- Customers.Customer.TotalOpportunityValue: it is a ghost function over the opportunity set. A null value, which makes `BigDecimal::add` throw, is `None`.
