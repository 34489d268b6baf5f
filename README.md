# mqproxy configuration resolver in Dafny

mqproxy is a small ZeroMQ publish/subscribe forwarder: it binds an XSUB
socket (the frontend, for publishers) and an XPUB socket (the backend, for
subscribers) and hands both to the library's proxy loop. Everything the
program itself decides happens before that loop starts, and that is what this
project models:

- `is_ip_address`: the IPv4 dotted-quad pattern, written as a predicate on one
  octet (`IpAddress.IsOctet`, the pattern's three alternatives) and a split on
  `'.'` (`IpAddress.IsIpAddress`). It is proved equal to the pattern's own shape
  (an octet followed by three dot-octet groups, `IpAddress.MatchesPattern`) and
  to the arithmetic reading "four parts of one to three digits, each of value
  at most 255" (`IpAddress.IpAddressIffBoundedParts`). Leading zeros (`"01"`, `"001"`) are accepted.
- `BindConfig` and its three constructors, with the defaults `127.0.0.1`,
  `5570` (frontend port) and `5571` (backend port) (module `BindConfigs`).
- `build_urls`: `tcp://<address>:<port>` for each side.
- `parse_args`: five arguments (program name and four values) are stored
  verbatim and unchecked; three are accepted only when both values are IPv4
  addresses, and then get the default ports; any other count is an error. On
  an error the caller's configuration is returned unchanged (`Mqproxy.ParseArgs`).
- `main`: every argument error exits with 1, the code choosing only the
  message; otherwise the relay's start result picks `EXIT_SUCCESS` or
  `EXIT_FAILURE` (`Mqproxy.Run`). Starting the relay is a function parameter.

Three details of the code that a reader might not expect:

- Two-value form with an invalid address: the process exits with 1, not 2.
  `main` returns 1 for every argument error; `RET_ERROR_REGEX` (2) only picks
  the message.
- Octets with leading zeros, such as `"01"` and `"001"`, are accepted; the
  pattern is looser than "four 0-255 octets" written without leading zeros.
- The default constructor passes `DEFAULT_BACKEND_ADDRESS` as the frontend
  address. Both constants are `"127.0.0.1"`, so `DefaultBindConfig` is proved
  equal to the two-value form on the default addresses.

## Model

| member | source | states |
|---|---|---|
| `IpAddress.IsOctet` | mqproxy.cpp:23-25 | one octet of the pattern, its three alternatives in order; whatever it accepts is one to three digits |
| `IpAddress.IsIpAddress` | mqproxy.cpp:67-70 | is_ip_address: the string splits at '.' into exactly four parts, each an octet; whatever it accepts is 7 to 15 characters long |
| `IpAddress.IpAddressIffBoundedParts` | mqproxy.cpp:23-25 | a string is accepted exactly when it splits at '.' into four parts of one to three digits, each of value at most 255 |
| `IpAddress.IpAddressIffPattern` | mqproxy.cpp:23-25 | the split-based check accepts a string exactly when it is octet "." octet "." octet "." octet, the full-string shape of the pattern |
| `IpAddress.OctetIffBoundedDigits` | mqproxy.cpp:24-25 | a string matches the octet alternatives `25[0-5]`, `2[0-4][0-9]`, `[01]?[0-9][0-9]?` exactly when it is one to three digits of value at most 255 |
| `IpAddress.LeadingZerosAccepted` | mqproxy.cpp:24 | "0", "00", "01", "001" and "099" are octets; "0001", "256", "999" and "" are not |
| `IpAddress.JoinSplit` | mqproxy.cpp:25 | splitting a string at a separator loses and adds nothing: joining the pieces with the separator gives the string back |
| `IpAddress.SplitJoin` | mqproxy.cpp:25 | splitting undoes joining when no piece contains the separator |
| `IpAddress.AcceptedOctetsBounded` | mqproxy.cpp:67-70 | each of the four parts of an accepted address is one to three digits of value at most 255 |
| `IpAddress.AcceptedShape` | mqproxy.cpp:67-70 | an accepted address is 7 to 15 characters, all digits or dots, with exactly three dots |
| `IpAddress.HostNameRejected` | mqproxy.cpp:67-70 | a string holding any character other than a digit or a dot is rejected |
| `IpAddress.DigitQuadIffOctets` | mqproxy.cpp:67-70 | four digit-only parts joined by dots are accepted exactly when every part is an octet, so "256.1.1.1" and "0001.1.1.1" are rejected |
| `IpAddress.WrongDotCountRejected` | mqproxy.cpp:67-70 | a string with other than three dots (three parts, five parts) is rejected |
| `IpAddress.AcceptedExamples` | mqproxy.cpp:67-70 | "127.0.0.1", "255.255.255.255" and "01.001.0.1" are accepted |
| `IpAddress.BadOctetExamples` | mqproxy.cpp:67-70 | "999.1.1.1", "256.1.1.1" and "0001.1.1.1" are rejected |
| `IpAddress.MalformedExamples` | mqproxy.cpp:67-70 | "1.1.1", "localhost" and "host.example.com" are rejected |
| `BindConfigs.WithDefaultPorts` | mqproxy.cpp:43-49 | the two-address constructor keeps both addresses and sets the ports to "5570" and "5571" |
| `BindConfigs.DefaultBindConfig` | mqproxy.cpp:51-56 | the default configuration is "127.0.0.1" on both sides with ports "5570" and "5571", the same as the two-address constructor on the default addresses |
| `BindConfigs.Url` | mqproxy.cpp:101-112 | a URL is "tcp://", then the address, then ":", then the port, and nothing else |
| `BindConfigs.UrlInjective` | mqproxy.cpp:101-112 | with colon-free ports, equal URLs have equal addresses and equal ports |
| `BindConfigs.BuildUrls` | mqproxy.cpp:98-116 | the frontend URL is "tcp://" + frontend address + ":" + frontend port, and the backend URL the same from the backend fields |
| `BindConfigs.UrlsDependOnOwnSide` | mqproxy.cpp:98-116 | for every pair of configurations, equal frontend fields give equal frontend URLs whatever the backend fields, and likewise for the backend |
| `BindConfigs.UrlsDetermineOwnSide` | mqproxy.cpp:98-116 | when a side's ports hold no ':', equal URLs on that side imply equal address and port on that side |
| `BindConfigs.DefaultUrls` | mqproxy.cpp:17-21 | the default configuration yields "tcp://127.0.0.1:5570" and "tcp://127.0.0.1:5571" |
| `Mqproxy.ParseArgs` | mqproxy.cpp:72-96 | five arguments give success with the four values verbatim; three give success with the default ports when both are IPv4 addresses and error 2 otherwise; any other count gives error 1; on every error the configuration is unchanged |
| `Mqproxy.Run` | mqproxy.cpp:148-167 | an argument error exits with 1 and the "missing arguments" or "invalid arguments" message by code; after a successful parse the exit code is 0 exactly when starting the relay on the resolved configuration returns 0, else 1 |

## Left out

- `Run` covers only a start step that returns. The `zmq::proxy` loop normally runs until the process is killed, and the ZeroMQ C++ wrapper reports its failures by throwing; neither path reaches the exit-code mapping in `main`, so `Run`'s exit codes describe only the paths where the start step returns.
- Starting the relay (`start_proxy`): the ZeroMQ context, the XSUB/XPUB sockets, the two `zmq_bind` calls and the `zmq::proxy` loop are foreign library calls and network I/O. `Run` receives the start step as a function from the resolved configuration to its return code. The forwarding itself, topic-prefix matching and subscription reference counting happen inside the library, and no source for them exists here.
- The bind check in `start_proxy` tests the frontend result twice and never the backend result. It belongs to the part left out above; the start step's return code stands for whatever that check yields.
- `usage()` and all standard-output lines are console I/O. `Run` reports only the one-line diagnostic written before the usage text.
- The `std::regex` engine is not modelled. The pattern is written out as `IpAddress.IsOctet` and `IpAddress.IsIpAddress`, and their equivalence to the pattern's shape is proved.
- The configuration holds `const char*` pointers into the argument vector. Here its fields are string values, so aliasing is not modelled. C strings cannot contain NUL, and the model does not restrict that.
- The argument count is the length of the argument vector. `parse_args` returns a `signed char`. Its three values are modelled as integers.
- `EXIT_SUCCESS` and `EXIT_FAILURE` are taken as 0 and 1, their values in glibc, musl and the BSD C libraries. POSIX requires only that `EXIT_FAILURE` be nonzero.
