# Employee REST proxy — a Dafny model

This project models the core of a small Spring Boot service that fronts the
public dummy employee API at `https://dummy.restapiexample.com/api/v1`. The
service forwards each request to that upstream API, unwraps its
`{status, data, message}` envelope and turns the employee records into
`Employee` values. It also computes three things over the full list: a
case-insensitive name search, the highest salary, and the names of the ten
highest earners. The REST controller maps the service's results, including
its sentinel messages on delete, onto HTTP statuses.

Modules:

- `Wrappers`: the `Option` type. `None` stands for a Java `null`.
- `Text`: the string operations the service relies on.
  - ASCII `toLowerCase` and `equalsIgnoreCase`.
  - `String.contains`, with a characterisation by match positions.
  - `Integer.parseInt`, with a decimal printer as its round-trip partner.
- `EmployeeModel`: the `Employee` record.
  - Its JSON property map (`employee_name`, `employee_salary`, …), with both directions of the mapping.
  - The bean itself, as a class with five mutable fields.
- `Upstream`: an HTTP exchange with the upstream API, abstracted as data.
  - A reply with a status code and an optional envelope.
  - A 429 error, a 404 error, or any other client failure.
- `EmployeeService`: the seven service operations.
  - Each takes the upstream exchange as a parameter.
  - A separate function gives the request (verb and URL) each operation sends.
  - The three derived operations are stated over `GetAllEmployees`.
  - The stable descending sort has its ordering, permutation and stability proofs.
- `EmployeeController`: the seven endpoints as functions from the exchange to a `(status, body)` response.
- `EmployeeServiceExamples`: the scenarios of the repository's unit tests, proved as lemmas.

Paths in the table are relative to the repository root.

## Model

| member | source | states |
|---|---|---|
| Text.ContainsIffOccurs | src/main/java/com/example/rqchallenge/employees/service/EmployeeService.java:92 | `Contains(hay, needle)` holds exactly when `needle` occurs in `hay` at some index, which is the meaning of `String.contains` used by the name filter |
| Text.ParseIntRoundTrip | src/main/java/com/example/rqchallenge/employees/service/EmployeeService.java:102 | every integer's decimal text is accepted by the `parseInt` model and parses back to the same integer |
| EmployeeModel.FromRow | src/main/java/com/example/rqchallenge/employees/model/Employee.java:9-19 | reading a record whose keys are exactly the five JSON properties loses nothing: writing the employee back gives the same property map |
| EmployeeModel.ToRowFromRow | src/main/java/com/example/rqchallenge/employees/model/Employee.java:9-19 | the other direction: writing an employee as its JSON properties and reading it back gives the same employee |
| EmployeeModel.EmployeeBean.constructor | src/main/java/com/example/rqchallenge/employees/model/Employee.java:24-30 | the all-arguments constructor stores each argument in its own field |
| EmployeeModel.EmployeeBean.GetId | src/main/java/com/example/rqchallenge/employees/model/Employee.java:33-35 | returns the stored id |
| EmployeeModel.EmployeeBean.SetId | src/main/java/com/example/rqchallenge/employees/model/Employee.java:37-39 | replaces the id and leaves the other four fields unchanged |
| EmployeeModel.EmployeeBean.GetEmployeeName | src/main/java/com/example/rqchallenge/employees/model/Employee.java:41-43 | returns the stored name |
| EmployeeModel.EmployeeBean.SetEmployeeName | src/main/java/com/example/rqchallenge/employees/model/Employee.java:45-47 | replaces the name and leaves the other four fields unchanged |
| EmployeeModel.EmployeeBean.GetSalary | src/main/java/com/example/rqchallenge/employees/model/Employee.java:49-51 | returns the stored salary text (unvalidated) |
| EmployeeModel.EmployeeBean.SetSalary | src/main/java/com/example/rqchallenge/employees/model/Employee.java:53-55 | replaces the salary and leaves the other four fields unchanged |
| EmployeeModel.EmployeeBean.GetAge | src/main/java/com/example/rqchallenge/employees/model/Employee.java:57-59 | returns the stored age text (unvalidated) |
| EmployeeModel.EmployeeBean.SetAge | src/main/java/com/example/rqchallenge/employees/model/Employee.java:61-63 | replaces the age and leaves the other four fields unchanged |
| EmployeeModel.EmployeeBean.GetProfilePicture | src/main/java/com/example/rqchallenge/employees/model/Employee.java:65-67 | returns the stored picture reference |
| EmployeeModel.EmployeeBean.SetProfilePicture | src/main/java/com/example/rqchallenge/employees/model/Employee.java:69-71 | replaces the picture reference and leaves the other four fields unchanged |
| EmployeeService.RequestTargets | src/main/java/com/example/rqchallenge/employees/service/EmployeeService.java:27-147 | the list goes by GET to `/employees` and creation by POST to `/create`, both under the fixed base URL; a lookup is a GET and a delete a DELETE on `/employee/` or `/delete/` followed by the id verbatim, so different ids give different requests |
| EmployeeService.SuccessEnvelopeIgnoresCase | src/main/java/com/example/rqchallenge/employees/service/EmployeeService.java:48 | the case-insensitive status test accepts `SUCCESS` and `Success`, and rejects `error`, a null body and a null status |
| EmployeeService.GetAllEmployees | src/main/java/com/example/rqchallenge/employees/service/EmployeeService.java:40-62 | on a success envelope with data, the result has one employee per upstream record, in order, and each converts back to its record; any other outcome (no body, other status, missing data, 429, 404, transport error) gives the empty list |
| EmployeeService.GetEmployeeByID | src/main/java/com/example/rqchallenge/employees/service/EmployeeService.java:64-84 | an employee is returned exactly when the reply is a success envelope carrying data, and it converts back to that record; otherwise null |
| EmployeeService.CreateEmployee | src/main/java/com/example/rqchallenge/employees/service/EmployeeService.java:119-144 | an employee is returned exactly when the reply has a 2xx code and a success envelope carrying data, and it converts back to that record; otherwise null |
| EmployeeService.CreateAcceptsOnly2xx | src/main/java/com/example/rqchallenge/employees/service/EmployeeService.java:132 | on a 2xx reply creation reads the body exactly as a lookup does; a non-2xx reply with a success envelope (e.g. 302) yields an employee from a lookup but null from creation |
| EmployeeService.DeleteEmployeeById | src/main/java/com/example/rqchallenge/employees/service/EmployeeService.java:146-169 | a 2xx success envelope yields the upstream message (possibly null); a 404 yields "Employee not found"; a 429 yields "Rate limit exdeeded."; any other reply or client failure yields "Failed to delete" |
| EmployeeService.FilterByName | src/main/java/com/example/rqchallenge/employees/service/EmployeeService.java:91-93 | the filtered list keeps the original order (it is a subsequence) and keeps every matching employee as many times as it occurs and no non-matching one |
| EmployeeService.GetEmployeesByNameSearch | src/main/java/com/example/rqchallenge/employees/service/EmployeeService.java:86-94 | the result is a subsequence of the full list; each employee whose lower-cased name contains the lower-cased query appears in it as many times as in the full list, and no other employee appears; the empty query returns the full list |
| EmployeeService.EmptyQueryKeepsAll | src/main/java/com/example/rqchallenge/employees/service/EmployeeService.java:92 | the empty query matches every name, so searching for it returns the whole list |
| EmployeeService.SearchIgnoresQueryCase | src/main/java/com/example/rqchallenge/employees/service/EmployeeService.java:92 | searching for a query and for its lower-cased form give the same list |
| EmployeeService.HighestSalary | src/main/java/com/example/rqchallenge/employees/service/EmployeeService.java:101-104 | on a nonempty list the result is a salary some employee has and no employee earns more; on the empty list it is 0 |
| EmployeeService.GetHighestSalaryOfEmployees | src/main/java/com/example/rqchallenge/employees/service/EmployeeService.java:96-105 | the result is a salary some fetched employee has and no fetched employee earns more; it is 0 when the fetched list is empty, in particular when the upstream list could not be fetched |
| EmployeeService.SortBySalaryDesc | src/main/java/com/example/rqchallenge/employees/service/EmployeeService.java:113 | the sorted list is a permutation of the input |
| EmployeeService.SortIsDescending | src/main/java/com/example/rqchallenge/employees/service/EmployeeService.java:113 | the sorted list is ordered by parsed salary, highest first |
| EmployeeService.SortIsStable | src/main/java/com/example/rqchallenge/employees/service/EmployeeService.java:113 | the sort is stable: for every salary, the employees earning it appear in the same relative order as in the input |
| EmployeeService.TopEarnersShape | src/main/java/com/example/rqchallenge/employees/service/EmployeeService.java:112-114 | the top earners are min(n, 10) employees taken from the input, ordered highest salary first |
| EmployeeService.TopEarnersOmitNoHigherEarner | src/main/java/com/example/rqchallenge/employees/service/EmployeeService.java:112-114 | every employee left out of the top earners earns no more than each one kept |
| EmployeeService.TopEarnersStable | src/main/java/com/example/rqchallenge/employees/service/EmployeeService.java:112-114 | among employees with equal salary, the ones kept are the first ones in input order |
| EmployeeService.GetTop10HighestEarningEmployeeNames | src/main/java/com/example/rqchallenge/employees/service/EmployeeService.java:107-117 | the result has min(n, 10) names, and the i-th is the name of the i-th top earner; a list of fewer than two employees is named as it is, whatever its salary text |
| EmployeeService.SortShortList | src/main/java/com/example/rqchallenge/employees/service/EmployeeService.java:113 | a list of fewer than two employees is its own top-earner list |
| EmployeeController.GetAllEmployees | src/main/java/com/example/rqchallenge/employees/controller/EmployeeController.java:29-32 | always 200 with the service's list, which is empty when the upstream fails |
| EmployeeController.GetEmployeesByNameSearch | src/main/java/com/example/rqchallenge/employees/controller/EmployeeController.java:36-39 | always 200 with the service's matches, a subsequence of the full list and empty when the upstream fails |
| EmployeeController.GetEmployeeById | src/main/java/com/example/rqchallenge/employees/controller/EmployeeController.java:43-50 | 200 with the employee when the service finds one, otherwise 404 with a null body; 404 happens exactly when the upstream did not deliver a record |
| EmployeeController.GetHighestSalaryOfEmployees | src/main/java/com/example/rqchallenge/employees/controller/EmployeeController.java:54-57 | always 200 with the service's maximum, which is 0 when the upstream fails |
| EmployeeController.GetTopTenHighestEarningEmployeeNames | src/main/java/com/example/rqchallenge/employees/controller/EmployeeController.java:61-64 | always 200 with the service's names, at most ten of them and none when the upstream fails |
| EmployeeController.CreateEmployee | src/main/java/com/example/rqchallenge/employees/controller/EmployeeController.java:68-69 | always 200, even when creation failed and the body is null |
| EmployeeController.FailureMessagesExclusive | src/main/java/com/example/rqchallenge/employees/controller/EmployeeController.java:76-81 | no message equals two of the three failure texts ignoring case, so at most one branch of the chain can fire |
| EmployeeController.DeleteResponse | src/main/java/com/example/rqchallenge/employees/controller/EmployeeController.java:75-85 | 404, 429 and 500 are returned exactly when the message equals "Employee not found", "Rate limit exdeeded." or "Failed to delete" ignoring case, with the message as body; anything else, null included, gives 200 with "Successfully deleted record" |
| EmployeeController.DeleteEmployeeById | src/main/java/com/example/rqchallenge/employees/controller/EmployeeController.java:74-85 | end to end: an upstream 404 gives 404, a 429 gives 429, a client failure or a non-success reply gives 500, a 2xx success whose message is not a failure text gives 200, and one whose message reads like a failure text is answered with that failure's status and the message; every case is the message table applied to the service's outcome |
| EmployeeController.DeleteStatusFollowsMessageText | src/main/java/com/example/rqchallenge/employees/controller/EmployeeController.java:80-83 | the status is chosen by message text alone: a 2xx success whose message reads "Failed to delete" still gives 500, and one with a null message gives 200 |
| EmployeeServiceExamples.ConorAndJohnDoe | src/test/java/com/example/rqchallenge/EmployeeServiceTests.java:121-126 | the two-record success reply reads as the employees Conor and John Doe, in that order |
| EmployeeServiceExamples.SearchFindsConor | src/test/java/com/example/rqchallenge/EmployeeServiceTests.java:132-137 | searching those two for "Conor" (and for "conor") returns only Conor |
| EmployeeServiceExamples.HighestOfConorAndJohnDoe | src/test/java/com/example/rqchallenge/EmployeeServiceTests.java:154-157 | the highest salary of those two is 1000000 |
| EmployeeServiceExamples.ServiceOverConorAndJohnDoe | src/test/java/com/example/rqchallenge/EmployeeServiceTests.java:132-157 | the same search and maximum, stated on the service operations applied to the upstream reply |
| EmployeeServiceExamples.SortReversesAscending | src/test/java/com/example/rqchallenge/EmployeeServiceTests.java:165-181 | a list whose salaries count up by one is sorted into its exact reverse |
| EmployeeServiceExamples.ReadBack | src/test/java/com/example/rqchallenge/EmployeeServiceTests.java:163-184 | a stubbed success reply carrying the JSON objects of some employees is read back as exactly those employees |
| EmployeeServiceExamples.TopTenOfFifteen | src/test/java/com/example/rqchallenge/EmployeeServiceTests.java:183-193 | from the stubbed reply of fifteen employees earning 1 to 15, the service names ten, "John 15" first and "John 12" fourth |
| EmployeeServiceExamples.DeleteReturnsUpstreamMessage | src/test/java/com/example/rqchallenge/EmployeeServiceTests.java:207-210 | a 200 success reply to a delete returns the upstream message unchanged |

## Left out

- Network, HTTP headers, JSON parsing and logging are left out. Each service operation receives the upstream exchange as a parameter. The request it would send is a separate function.
- The `Retry-After` header read in the 429 handlers is left out. It is only logged. A 429 that arrives without headers throws an NPE there, and that NPE is not modelled.
- Data of the wrong shape is left out, as is the `ClassCastException` it raises.
  - Examples: a non-string `status`, a `data` that is not a list or map, a non-string `message`.
  - The envelope fields are typed, so the model cannot express such data.
- EmployeeService.GetAllEmployees, EmployeeService.GetEmployeeByID and EmployeeService.CreateEmployee require every record to have exactly the five JSON properties.
  - A record with missing or null properties (which Jackson binds to null fields) or with unknown keys (which make Jackson throw) is outside the model.
  - When Jackson throws, `getAllEmployees` catches it and answers the empty list.
  - `getEmployeeByID` catches it too and answers null.
  - In `createEmployee` the exception (an `IllegalArgumentException`) is not a `RestClientException`, so it escapes to the controller.
- EmployeeService.CreateEmployee and EmployeeService.DeleteEmployeeById catch only `RestClientException`. Any other exception escapes to the controller, which then answers 500 through Spring. This is not modelled; `Failed` stands for client errors only.
- EmployeeService.GetHighestSalaryOfEmployees requires every fetched salary to be decimal text. The source parses every salary, even of a single employee, and throws `NumberFormatException` on any other text; that exception reaches the controller.
- EmployeeService.GetTop10HighestEarningEmployeeNames requires this only for lists of two or more employees. The stream sort returns a shorter list without calling its comparator, so no salary is parsed and the model names that list as it is.
- IsDecimal accepts only the ASCII digits `0`–`9`. `Integer.parseInt` also accepts other Unicode decimal digits, and salary texts written with those are outside the model.
- EmployeeService.GetEmployeesByNameSearch assumes names are non-null. The source throws an NPE on a null name.
- ParseInt and Salary do not model the 32-bit `int` range. A salary text outside that range throws in the source, whereas the model parses it to an unbounded integer.
- Text.Lower folds only ASCII `A`–`Z`. Locale-dependent and Unicode case mappings are not modelled.
- The no-argument `Employee` constructor, whose fields start out null, is left out. Jackson uses it only while converting a record.
- EmployeeModel.EmployeeBean: its five fields are `string`, so a null field value cannot be expressed. In the source, the five-argument constructor and every setter accept `null`.
- `RestTemplate`'s default error handler raises on 4xx and 5xx replies. Upstream.Reachable therefore excludes those codes from a `Responded` outcome, and every operation requires a reachable exchange. Any other code, 3xx included, is a reply that reached the service.
- Spring routing, path-variable binding, request-body mapping for creation, and the `IEmployeeController` interface are left out. The creation input map is only forwarded upstream.
