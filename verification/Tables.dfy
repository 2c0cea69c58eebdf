/** The two dispatch tables of the command thread. */
module Tables {
  import opened Words

  /** HANDLER_MAP: the number of words each device reply must have; most have one. */
  const HANDLER_MAP: map<Word32, nat> :=
    (map cmd: Word32 | cmd in {0x0, 0x901, 0x902, 0x90F, 0x54A, 0x549, 0x568, 0x569, 0x56F, 0x56E, 0x54E, 0x560, 0x55F,
                               0x116, 0x117, 0x119, 0x561, 0x550, 0x551, 0x22E, 0x784, 0x336, 0x337, 0x905, 0x906,
                               0x334, 0x335, 0x330, 0x331, 0x441, 0x11A, 0x11B, 0x446, 0x447, 0x442, 0x443, 0x22A,
                               0x907, 0x564, 0x338} :: 1 as nat)
    [0x111 := 4][0x783 := 2][0x440 := 5][0x22D := 65]

  /** The genericForward entries of COMMAND_MAP: payload size and device command. */
  const COMMAND_MAP: map<Word32, (nat, Word32)> := STATUS_COMMANDS + SETUP_COMMANDS + READOUT_COMMANDS

  const STATUS_COMMANDS: map<Word32, (nat, Word32)> :=
    map[0 := (0, 0x0), 1 := (0, 0x901), 2 := (0, 0x902), 3 := (0, 0x90F), 4 := (0, 0x111), 5 := (0, 0x54A),
        6 := (0, 0x549), 7 := (0, 0x568), 8 := (0, 0x569), 9 := (0, 0x56F), 10 := (0, 0x56E), 11 := (1, 0x54E),
        12 := (1, 0x560), 13 := (1, 0x55F)]

  const SETUP_COMMANDS: map<Word32, (nat, Word32)> :=
    map[14 := (0, 0x116), 15 := (0, 0x117), 16 := (1, 0x119), 17 := (1, 0x561), 18 := (0, 0x550), 19 := (0, 0x551),
        20 := (0, 0x22E), 21 := (1, 0x783), 22 := (2, 0x784), 23 := (0, 0x336), 24 := (1, 0x337), 25 := (0, 0x905),
        26 := (1, 0x906), 27 := (0, 0x334), 28 := (1, 0x335)]

  const READOUT_COMMANDS: map<Word32, (nat, Word32)> :=
    map[29 := (0, 0x330), 30 := (1, 0x331), 31 := (0, 0x440), 32 := (5, 0x441), 33 := (1, 0x11A), 34 := (1, 0x11B),
        35 := (0, 0x446), 36 := (0, 0x447), 37 := (0, 0x442), 38 := (0, 0x443), 39 := (1, 0x22D), 41 := (1, 0x907),
        42 := (0, 0x564), 48 := (1, 0x338)]

  /** The two entries of COMMAND_MAP with a function of their own. */
  const SET_PIXEL_CONFIG: Word32 := 40
  const SET_UDP_PORT: Word32 := 500

  const CMD_RESET_MODULE: Word32 := 0x907
  const CMD_SET_PIXCONF: Word32 := 0x22A

  lemma HandlerCodes()
    ensures CMD_SET_PIXCONF in HANDLER_MAP && CMD_RESET_MODULE in HANDLER_MAP
    ensures forall cmd | cmd in HANDLER_MAP :: cmd < 0x1_0000
  {
  }

  lemma StatusHandled()
    ensures forall code | code in STATUS_COMMANDS ::
      STATUS_COMMANDS[code].1 in HANDLER_MAP && STATUS_COMMANDS[code].0 <= 5 && code <= 48 && code != SET_PIXEL_CONFIG
  {
  }

  lemma SetupHandled()
    ensures forall code | code in SETUP_COMMANDS ::
      SETUP_COMMANDS[code].1 in HANDLER_MAP && SETUP_COMMANDS[code].0 <= 5 && code <= 48 && code != SET_PIXEL_CONFIG
  {
  }

  lemma ReadoutHandled()
    ensures forall code | code in READOUT_COMMANDS ::
      READOUT_COMMANDS[code].1 in HANDLER_MAP && READOUT_COMMANDS[code].0 <= 5 && code <= 48 && code != SET_PIXEL_CONFIG
  {
  }

  /** Every command a client can have queued has a handler for its reply, and few words. */
  lemma ForwardsHandled(code: Word32)
    requires code in COMMAND_MAP
    ensures COMMAND_MAP[code].1 in HANDLER_MAP && COMMAND_MAP[code].0 <= 5
    ensures code <= 48 && code != SET_PIXEL_CONFIG
  {
    StatusHandled();
    SetupHandled();
    ReadoutHandled();
  }
}
