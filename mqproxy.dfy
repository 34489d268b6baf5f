/**
 The command-line front of mqproxy: parse_args turns the arguments into a
 BindConfig or an error code, and main turns that code (or the outcome of
 starting the relay) into the process exit code.

 The argument vector is a sequence whose first element is the program name,
 so the C argument count is its length. Starting the relay (binding the two
 ZeroMQ sockets and running the library's proxy loop) is outside this model:
 main receives it as a function from the resolved configuration to the
 return code it yields.
 */
module Mqproxy {
  import opened IpAddress
  import opened BindConfigs

  const RetSuccess: int := 0
  const RetError: int := 1
  const RetErrorRegex: int := 2

  /**
   The C library's EXIT_SUCCESS and EXIT_FAILURE, with the values 0 and 1
   they have in glibc, musl and the BSD C libraries (POSIX requires only that
   EXIT_FAILURE be nonzero).
   */
  const ExitSuccess: int := 0
  const ExitFailure: int := 1

  const MissingArgumentsMessage: string := "Error: missing arguments.\n"
  const InvalidArgumentsMessage: string := "Error: invalid arguments.\n"

  /**
   parse_args. Five arguments (program name and four values) are taken as
   they are; three are taken only when both are IPv4 addresses and then get
   the default ports; anything else is an error. On an error the caller's
   configuration is handed back unchanged.
   */
  method ParseArgs(config: BindConfig, argv: seq<string>) returns (ret: int, updated: BindConfig)
    ensures |argv| == 5 ==>
      ret == RetSuccess && updated == BindConfig(argv[1], argv[2], argv[3], argv[4])
    ensures |argv| == 3 && IsIpAddress(argv[1]) && IsIpAddress(argv[2]) ==>
      ret == RetSuccess && updated == BindConfig(argv[1], "5570", argv[2], "5571")
    ensures |argv| == 3 && !(IsIpAddress(argv[1]) && IsIpAddress(argv[2])) ==>
      ret == RetErrorRegex && updated == config
    ensures |argv| != 3 && |argv| != 5 ==> ret == RetError && updated == config
    ensures ret != RetSuccess ==> updated == config
  {
    if |argv| == 5 {
      updated := BindConfig(argv[1], argv[2], argv[3], argv[4]);
    } else if |argv| == 3 {
      if !IsIpAddress(argv[1]) || !IsIpAddress(argv[2]) {
        return RetErrorRegex, config;
      }
      updated := WithDefaultPorts(argv[1], argv[2]);
    } else {
      return RetError, config;
    }
    return RetSuccess, updated;
  }

  /**
   main. Every argument error exits with 1, whichever code parse_args gave;
   the code only chooses the message. Otherwise the relay is started on the
   resolved configuration and its return code decides between EXIT_SUCCESS
   and EXIT_FAILURE. The message is what is written to the error stream
   before the usage text ("" when nothing is). Only a start step that
   returns is modelled: the proxy loop normally runs until the process is
   killed, and the ZeroMQ C++ wrapper reports failures by throwing, and
   neither reaches the exit-code mapping.
   */
  method Run(argv: seq<string>, startProxy: BindConfig -> int) returns (exitCode: int, message: string)
    ensures |argv| != 3 && |argv| != 5 ==> exitCode == 1 && message == MissingArgumentsMessage
    ensures |argv| == 3 && !(IsIpAddress(argv[1]) && IsIpAddress(argv[2])) ==>
      exitCode == 1 && message == InvalidArgumentsMessage
    ensures |argv| == 5 ==>
      && message == ""
      && exitCode == (if startProxy(BindConfig(argv[1], argv[2], argv[3], argv[4])) == RetSuccess
                      then ExitSuccess else ExitFailure)
    ensures |argv| == 3 && IsIpAddress(argv[1]) && IsIpAddress(argv[2]) ==>
      && message == ""
      && exitCode == (if startProxy(BindConfig(argv[1], "5570", argv[2], "5571")) == RetSuccess
                      then ExitSuccess else ExitFailure)
    ensures exitCode == 0 || exitCode == 1
  {
    var config := DefaultBindConfig();
    var argsResult;
    argsResult, config := ParseArgs(config, argv);
    if argsResult != RetSuccess {
      message := "";
      if argsResult == RetError {
        message := MissingArgumentsMessage;
      }
      if argsResult == RetErrorRegex {
        message := InvalidArgumentsMessage;
      }
      return 1, message;
    }
    message := "";
    var startResult := startProxy(config);
    if startResult != RetSuccess {
      return ExitFailure, message;
    }
    return ExitSuccess, message;
  }
}
