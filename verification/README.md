# Models of the Raspberry Pi programs

This project models the programs of the repository that hold real arithmetic, state or
interleaving, and proves what they do.

- `Circle.dfy`, `Ring.dfy`, `Framebuffer.dfy`: the integer circle rasteriser, the outline it
  draws, and the drawing routines on a byte-level 16-bit framebuffer
  (`chapter7/ex7-5/ex7_5.c`). The error update of the program is `2*(y-x+1)`, which is not the
  textbook midpoint update. The model follows the program: what it draws is, on every row of
  the octant, the innermost pixel strictly outside radius r - 1/2.
- `Dht.dfy`: the pulse-width decoder of the humidity sensor (`chapter3/wiringdht/wiringdth.c`).
  The data line is any infinite stream of samples, and each `digitalRead` consumes one.
- `CStrings.dfy`, `Requests.dfy`, `RequestServer.dfy`: C strings in character buffers with strcpy,
  strcmp and strtok's hidden cursor; the meaning of the request parsing; the program text
  (`chapter6/rpi6/rpi6.c`). An option list has the name=value pairs joined by `&` of section
  17.13.4 of HTML 4.01. All buffer sizes are parameters.
- `Options.dfy`, `Levels.dfy`: the shared optional-value type and pin levels.
- `Actuators.dfy`: the music and motor worker threads of the same program, any number of them
  in any interleaving.
- `WebControl.dfy`: requests and workers together. Connections are handled one after another, and
  their music and motor commands start the worker threads, whose steps interleave with them.
- `LedDrivers.dfy`: the two LED character drivers (`chapter9/ex9-1`, `chapter9/ex9-2`), the
  first down to its registers as section 6.1 of BCM2835 ARM Peripherals describes them.
- `Semaphore.dfy`, `Mutex.dfy`: the semaphore and mutex programs (`chapter5`) as transition
  systems whose count updates are separate loads and stores, with any number of rounds and
  of threads.
- `ListDir.dfy`: the recursive directory walk (`chapter4/list/list.c`) with the current
  directory as process state.

Program text that updates state is a class with methods, each proved against a function or set
that has its own theorems. Programs whose point is interleaving are transition systems, and
their theorems hold after every run.

## What the programs do that one would not guess

- A zero end makes `DrawFace` fill to the edge of the screen and makes `DrawFaceMMAP` paint
  nothing, because its two assignments discard their values (`Framebuffer.FacesAgree`). So the
  background fill in `main` paints nothing.
- The slash shift is right exactly when the second character is not a slash
  (`Requests.DropsOneSlashIff`).
- With its unprotected `cnt++` and `cnt--`, the semaphore program can end at any count from
  -rounds to rounds, and nowhere else (`Semaphore.FinalCounts`). A finished run kept the count
  exact throughout if and only if no two updates overlapped (`Semaphore.ExactIffNoOverlap`). The
  semaphore itself is always exact.
- Only the first two `?`-separated pieces of a target and the first two `=`-separated pieces of
  an option are used; the rest is dropped (`Requests.TargetIsFirstTwoTokens`,
  `Requests.OptionIsFirstTwoTokens`).
- The two LED drivers agree after a run exactly when the run has a write or they started at the
  same level (`LedDrivers.DriversAgreeIff`). A payload of `0` and a newline lights the LED (`LedDrivers.NewlineLightsTheLed`).
- Of n music requests, any number from 1 to n is played, and no other: a request that comes while
  one plays is lost (`Actuators.PossiblePerformances`, `WebControl.FinishedServerRun`).
- A line that changes level every two samples completes all 85 edges and overruns the five-byte
  array by one bit (`Dht.FlickerOverruns`).
- `listDir(".")` ends one directory too high and `listDir("..")` two, as far as the root allows; a
  child name restores the current directory (`ListDir.RestoresExactlyForChildren`). A longer path
  that ends in an ordinary name restores it exactly when what precedes the name leads back to
  it; one that ends in `.` or `..` exactly when what precedes leads to a directory whose parent,
  or parent's parent, it is (`ListDir.RestoresIff`). So `./.` does not restore it below the
  root, and `b/.` does at the root (`ListDir.LastDotDecides`).

## Model

| member | source | states |
|---|---|---|
| Circle.VisitsExactlyTheOctant | chapter7/ex7-5/ex7_5.c:57-79 | for every radius, the octant pixels the loop runs for are exactly those with 0 <= y <= x where x is the least natural outside radius r - 1/2 (soundness and completeness, one per row); only the centre for radius 0, none below |
| Circle.ErrorClosedForm | chapter7/ex7-5/ex7_5.c:57-79 | at every loop head the error term is (x-1)^2 + (y+1)^2 - (r^2 - r + 1) |
| Circle.ErrorSign | chapter7/ex7-5/ex7_5.c:72-78 | the branch taken tests whether the pixel diagonally inward lies outside radius r - 1/2 |
| Circle.HeadIsInnermost | chapter7/ex7-5/ex7_5.c:60-79 | while the guard holds the loop sits on the innermost pixel of its row, and just past the end on one outside |
| Circle.ReachesIsGuard | chapter7/ex7-5/ex7_5.c:60-60 | once the guard fails on a row it holds on no later row |
| Circle.WithinHalfAPixel | chapter7/ex7-5/ex7_5.c:60-79 | every visited pixel is within half a pixel of the ideal circle, and visited rows satisfy 2y^2 <= r^2 + r - 1 |
| Circle.ErrorStaysLinear | chapter7/ex7-5/ex7_5.c:71-78 | the error stays between 2(y-x)+2 and 2y, and every intermediate between -2r and 4r+3, so an int does not overflow |
| Circle.NextRowTouches | chapter7/ex7-5/ex7_5.c:71-78 | successive octant pixels are neighbours |
| Circle.LastPixelMeetsDiagonal | chapter7/ex7-5/ex7_5.c:60-79 | the last octant pixel has x - y in {0, 1} |
| Circle.AtMostOneInsideMidpoint | chapter7/ex7-5/ex7_5.c:71-78 | on every drawn row the exact midpoint pixel exists, and the code is on it or one inside it, and which of the two |
| Ring.RingIsEightOctants | chapter7/ex7-5/ex7_5.c:62-69 | a pixel is on the outline iff it is one of the eight reflections of a visited pair |
| Ring.RingIsConnected | chapter7/ex7-5/ex7_5.c:60-79 | any two outline pixels are joined by a chain of touching outline pixels |
| Ring.CrossingLandsOnRing | chapter7/ex7-5/ex7_5.c:60-79 | a horizontal or vertical step from inside radius r - 1/2 to outside lands on the outline |
| Ring.RingIsTheBoundary | chapter7/ex7-5/ex7_5.c:60-79 | a pixel is on the outline iff it is outside radius r - 1/2 and has a horizontal or vertical neighbour that is not |
| Ring.RingStopsFloodFill | chapter7/ex7-5/ex7_5.c:60-79 | every 4-connected walk out of the disc steps on the outline: it has no gaps |
| Framebuffer.MakePixelChannels | chapter7/ex7-5/ex7_5.c:13-16 | the three channels of a pixel do not overlap and can be read back |
| Framebuffer.ColourBytes | chapter7/ex7-5/ex7_5.c:30-30 | the two bytes of a stored colour, low byte first, read back as the colour |
| Framebuffer.IndexInjective | chapter7/ex7-5/ex7_5.c:28-28 | row-major addressing is injective on the columns of the screen |
| Framebuffer.RowMajor | chapter7/ex7-5/ex7_5.c:28-28 | pixel 0 is the upper left corner, one column right is one more, one row down is xres more |
| Framebuffer.Screen.PutPixel | chapter7/ex7-5/ex7_5.c:28-30 | the seek and two-byte write paint exactly the addressed pixel: bytes 2(x + y*xres) and the next read back, low byte first, as the colour |
| Framebuffer.Screen.StoreColour | chapter7/ex7-5/ex7_5.c:141-141 | the 16-bit store paints exactly pixel i, whose two bytes read back, low byte first, as the colour |
| Framebuffer.Screen.DrawPoint | chapter7/ex7-5/ex7_5.c:18-33 | that pixel painted with the colour, every other byte unchanged |
| Framebuffer.Screen.DrawLine | chapter7/ex7-5/ex7_5.c:35-53 | the half-open run of pixels painted, every other byte unchanged |
| Framebuffer.Screen.DrawFace | chapter7/ex7-5/ex7_5.c:82-113 | the rectangle painted, a zero end meaning the screen edge; every other byte unchanged |
| Framebuffer.Screen.DrawFaceMMAP | chapter7/ex7-5/ex7_5.c:115-148 | the rectangle painted, a zero end staying zero; every other byte unchanged |
| Framebuffer.Screen.PlotEight | chapter7/ex7-5/ex7_5.c:62-69 | the eight calls add exactly the eight reflections |
| Framebuffer.Screen.DrawCircle | chapter7/ex7-5/ex7_5.c:55-80 | for every radius, exactly the ring's pixels painted, every other byte unchanged |
| Framebuffer.CirclePixels | chapter7/ex7-5/ex7_5.c:55-80 | for a circle on screen, a screen pixel holds the colour iff its offset from the centre is on the ring, and its old value otherwise |
| Framebuffer.OnScreenCircleFits | chapter7/ex7-5/ex7_5.c:55-80 | a circle wholly on screen stays within the device |
| Framebuffer.RectPixels | chapter7/ex7-5/ex7_5.c:102-110 | after a fill, a screen pixel holds the colour iff it is inside the rectangle, and its old value otherwise |
| Framebuffer.LinesFillTheFace | chapter7/ex7-5/ex7_5.c:45-50 | drawing every row as a line leaves the framebuffer of the column-by-column fills |
| Framebuffer.FacesAgree | chapter7/ex7-5/ex7_5.c:93-110 | the two fills agree on every framebuffer and colour iff no end is zero or DrawFace's rectangle is empty |
| Framebuffer.OnScreenRectFits | chapter7/ex7-5/ex7_5.c:102-110 | an on-screen rectangle stays within the device |
| Dht.Sensor.CountRun | chapter3/wiringdht/wiringdth.c:31-41 | the counter is the run length, at most 255; below 255 the run has ended, at 255 all 255 samples were equal; and which sample comes next |
| Dht.Sensor.ShiftIn | chapter3/wiringdht/wiringdth.c:50-54 | the five values after one more bit |
| Dht.Sensor.OneEdge | chapter3/wiringdht/wiringdth.c:31-56 | one pass moves one edge's bit from the line to the bytes, or breaks on a timeout |
| Dht.MaskIsMod | chapter3/wiringdht/wiringdth.c:59-59 | a bitwise and with n ones is the value modulo 2^n |
| Dht.OrAndSum | chapter3/wiringdht/wiringdth.c:53-59 | bitwise or and bitwise and of two values add up to their sum |
| Dht.Sensor.Acceptable | chapter3/wiringdht/wiringdth.c:59-59 | the test with its bitwise mask accepts iff 40 bits arrived and the last byte is the sum of the others modulo 256 |
| Dht.Sensor.ReadData | chapter3/wiringdht/wiringdth.c:10-68 | on any line that times out, the bit count, the five bytes and the verdict the line determines |
| Dht.EdgeCompletes | chapter3/wiringdht/wiringdth.c:33-46 | a run of fewer than 255 samples followed by two samples of the other level is one counted edge |
| Dht.EdgeStep | chapter3/wiringdht/wiringdth.c:33-46 | a run of fewer than 255 samples is one counted edge, and the re-read after it sets the level waited for next |
| Dht.GlitchSplitsRun | chapter3/wiringdht/wiringdth.c:33-46 | a one-sample glitch splits a run in two edges, the second at the same level |
| Dht.EdgeTimesOut | chapter3/wiringdht/wiringdth.c:37-46 | 255 samples at the level waited for end the reading |
| Dht.BitAt | chapter3/wiringdht/wiringdth.c:48-56 | bit k is decided by the count of edge 4 + 2k |
| Dht.WaveformCounts | chapter3/wiringdht/wiringdth.c:29-57 | the 84 counts of a waveform whose first run is below 255 samples, the later ones 2 to 256, and the idle 257: the first run whole, two samples less of every later one |
| Dht.OverrunExactlyWithoutTimeout | chapter3/wiringdht/wiringdth.c:29-56 | a 41st bit arrives iff all 85 edges complete; 40 arrive iff at least 83 do |
| Dht.FlickerOverruns | chapter3/wiringdht/wiringdth.c:29-56 | an input that overruns: a line alternating every two samples completes 85 edges and gives 41 bits |
| Dht.LaterEdge | chapter3/wiringdht/wiringdth.c:33-46 | a run of L samples after the first, 2 to 256 of them, counts as L - 2 |
| Dht.WaveformDecodes | chapter3/wiringdht/wiringdth.c:29-57 | any waveform with the sensor's edges gives 40 bits, bit k set iff its high run exceeds 18 samples |
| Dht.RoundTrip | chapter3/wiringdht/wiringdth.c:29-59 | any waveform encoding five bytes is read back as them, accepted iff the last is the sum of the others mod 256 |
| Dht.SignalIsWaveform | chapter3/wiringdht/wiringdth.c:29-57 | every list of 84 countable run lengths is the waveform of some line |
| Dht.DecodesEverySignal | chapter3/wiringdht/wiringdth.c:29-59 | encoder and decoder: the line driven for any five bytes, with any pulse lengths on the two sides of the threshold, is read back as them and accepted iff the checksum holds |
| Dht.OneByteCorruptionIsRejected | chapter3/wiringdht/wiringdth.c:48-59 | two accepted readings of any lines that differ only within one byte are equal |
| Dht.PackUnpack | chapter3/wiringdht/wiringdth.c:50-54 | shifting in a byte's bits, most significant first, gives the byte |
| Dht.UnpackPack | chapter3/wiringdht/wiringdth.c:50-54 | and the bits can be recovered from the value |
| CStrings.TokensOfJoin | chapter6/rpi6/rpi6.c:288-292 | repeated strtok calls undo joining nonempty delimiter-free parts |
| CStrings.TokensArePlain | chapter6/rpi6/rpi6.c:288-292 | every token is nonempty, delimiter-free, and has none but the text's characters |
| CStrings.SkipIsSuffix | chapter6/rpi6/rpi6.c:288-292 | what strtok skips is delimiters only, and what follows does not start with one |
| CStrings.TokensEquations | chapter6/rpi6/rpi6.c:288-292 | the equations that determine the tokens of any text: none in the empty one, a leading delimiter adds none, a plain part before a delimiter is one |
| CStrings.Tokenizer.Next | chapter6/rpi6/rpi6.c:284-297 | strtok(NULL, d): the token cut out in place, the saved cursor and remaining text, and NULL when only delimiters are left |
| CStrings.StrCpy | chapter6/rpi6/rpi6.c:284-297 | the destination holds the source string; a copy onto itself changes nothing |
| CStrings.StrEq | chapter6/rpi6/rpi6.c:299-305 | !strcmp against a literal decides equality of the strings |
| CStrings.HasChar | chapter6/rpi6/rpi6.c:277-277 | whether the text contains the character |
| Requests.DropsOneSlashIff | chapter6/rpi6/rpi6.c:268-274 | the shift removes exactly the leading slash, whatever the rest of the buffer holds, iff the second character is not a slash |
| Requests.QueryRoundTrip | chapter6/rpi6/rpi6.c:277-297 | printing a path and options and running the three passes gives them back in order |
| Requests.ParseIsCanonical | chapter6/rpi6/rpi6.c:277-297 | any successfully parsed text gives a printable result that parses back to itself |
| Requests.OptionIsFirstTwoTokens | chapter6/rpi6/rpi6.c:296-297 | an option is its first two `=` tokens, what follows is dropped, and fewer than two means a copy from NULL |
| Requests.TargetIsFirstTwoTokens | chapter6/rpi6/rpi6.c:284-285 | a target with a query is its first two `?` tokens, what follows is dropped |
| Requests.PrintedOptionTokens | chapter6/rpi6/rpi6.c:284-292 | the options of a printed list are cut apart as printed |
| Requests.RequestRoundTrip | chapter6/rpi6/rpi6.c:252-297 | the same from the whole request line |
| Requests.GetLineRoundTrip | chapter6/rpi6/rpi6.c:252-267 | a GET line yields its target |
| Requests.LineIsFirstTwoTokens | chapter6/rpi6/rpi6.c:252-267 | the method is the first space-separated token: POST, GET with the second token as target, any other refused |
| Requests.PrintEquations | chapter6/rpi6/rpi6.c:277-297 | the printed form: the path, `?` and name=value for the first option, `&` and name=value for every further one |
| Requests.OptionCommands | chapter6/rpi6/rpi6.c:299-307 | music=Play and only it starts the music, motor=On the motor, led=On and led=Off set the LED |
| Requests.CommandCounts | chapter6/rpi6/rpi6.c:303-306 | an option list means as many music and motor commands as it has music=Play and motor=On options |
| Requests.LastLedOptionWins | chapter6/rpi6/rpi6.c:299-302 | the LED ends at the value of the last led option, and is unchanged without one |
| Requests.LastLedOptionUnique | chapter6/rpi6/rpi6.c:299-302 | every option list has exactly one position after its last led=On or led=Off |
| Requests.CommandsMean | chapter6/rpi6/rpi6.c:299-307 | a command list means its options, one by one, iff it is the one the options are turned into |
| Requests.LedOfLastOption | chapter6/rpi6/rpi6.c:299-302 | over an option list: the last of led=On and led=Off lights the LED or not, and without one it keeps its level |
| Requests.LedAfterMore | chapter6/rpi6/rpi6.c:299-302 | the LED after two lists of commands is that after the second, started where the first left it |
| RequestServer.Server.DropSlash | chapter6/rpi6/rpi6.c:268-274 | the buffer after the in-place shift, for one leading slash or two |
| RequestServer.Server.SplitTarget | chapter6/rpi6/rpi6.c:284-285 | path left in the file name buffer, query in the option line |
| RequestServer.Server.CutOptions | chapter6/rpi6/rpi6.c:287-292 | every option in its own slot, in order, and how many |
| RequestServer.Server.CutOption | chapter6/rpi6/rpi6.c:296-297 | the name and value of an option in their buffers |
| RequestServer.Server.Dispatch | chapter6/rpi6/rpi6.c:298-307 | music=Play and no other option issues the music command, motor=On the motor command, led=On and led=Off the LED commands, and the LED takes that level |
| RequestServer.Server.RunOptions | chapter6/rpi6/rpi6.c:295-308 | all options printed and acted on in order |
| RequestServer.Server.Control | chapter6/rpi6/rpi6.c:276-309 | path, printed options, commands and LED are those of the parsed target |
| RequestServer.Server.HandleLine | chapter6/rpi6/rpi6.c:252-309 | the same from the request line; POST and other methods touch no actuator |
| RequestServer.Server.PrintedRequestIsServed | chapter6/rpi6/rpi6.c:252-309 | a printed request whose pieces fit the buffers is one the program serves |
| RequestServer.Server.HandlePrinted | chapter6/rpi6/rpi6.c:252-309 | end to end: from the request line of a printed path and options to that file name, those printed options, for each option the command it asks for (music=Play, motor=On, led=On, led=Off), and the LED of the last led option |
| RequestServer.Server.Serve | chapter6/rpi6/rpi6.c:210-221 | one connection after another, the options of all request lines are printed and carried out in order, and the LED is as they leave it |
| Actuators.TraceIsWholePerformances | chapter6/rpi6/rpi6.c:37-55 | after any run the trace is one complete performance per thread that finished one, then the holder's prefix |
| Actuators.MotorOffWhenLockFree | chapter6/rpi6/rpi6.c:47-55 | the motor pin is LOW whenever motor_lock is free and follows the holder's position otherwise |
| Actuators.NoThreadEverWaits | chapter6/rpi6/rpi6.c:39-52 | every thread that has not left has exactly one enabled step |
| Actuators.ThreadStepsAreBounded | chapter6/rpi6/rpi6.c:37-55 | how many steps a thread has taken in each phase: at most the script and three, or two when refused |
| Actuators.EveryInterleavingIsOrderly | chapter6/rpi6/rpi6.c:37-130 | the speaker and motor traces together, over every interleaving of any number of threads of both kinds |
| Actuators.Pins.MusicPlay | chapter6/rpi6/rpi6.c:83-94 | the 32 notes are written in order |
| Actuators.Pins.MotorControl | chapter6/rpi6/rpi6.c:116-130 | on, off, three times, ending LOW |
| Actuators.NotesAreTruncated | chapter6/rpi6/rpi6.c:25-30 | the 32 notes given to the speaker are the source's initialisers without their fractions |
| Actuators.Pins.MusicFunction | chapter6/rpi6/rpi6.c:37-45 | one performance if the lock was free, none otherwise, lock restored |
| Actuators.Pins.MotorFunction | chapter6/rpi6/rpi6.c:47-55 | one session if the lock was free, none otherwise, lock restored |
| RequestServer.Server.LedControl | chapter6/rpi6/rpi6.c:57-63 | the LED takes the requested level |
| Actuators.SoloThread | chapter6/rpi6/rpi6.c:37-55 | a thread scheduled alone has the effect its function's contract states |
| Actuators.SomeonePerforms | chapter6/rpi6/rpi6.c:37-55 | once all threads have left, the trace is whole performances, at least one if there was a thread and at most one each |
| Actuators.PossiblePerformances | chapter6/rpi6/rpi6.c:37-55 | n > 0 threads can end with exactly 1 to n performances |
| WebControl.RunsAreBoardRuns | chapter6/rpi6/rpi6.c:295-308 | every run of commands and worker steps is a run of the two devices, with one thread for each music and motor command issued; the commands are issued in order and decide the LED |
| WebControl.EveryServerRunIsOrderly | chapter6/rpi6/rpi6.c:303-306 | in every run of a server on the options of its requests, the speaker and motor traces are whole performances, at most one for each music=Play or motor=On acted on, and at most one prefix; the motor is off when its lock is free |
| WebControl.FinishedServerRun | chapter6/rpi6/rpi6.c:303-306 | when all options are acted on and all workers have left: as many music and motor threads as music=Play and motor=On options; whole performances only, at least one if any was asked for, at most one for each; the LED as the last led option says |
| LedDrivers.InitSelectsOnePin | chapter9/ex9-1/gpio_module.c:130-131 | GPIO_IN then GPIO_OUT puts 001 in bits 3*(g%10) to 3*(g%10)+2 of register g/10 and changes no other pin's function field, no unused bit and no other register |
| LedDrivers.FieldBits | chapter9/ex9-1/gpio_module.c:17-18 | the field the macros address for pin g is bits 3*(g%10) to 3*(g%10)+2 |
| LedDrivers.LedRegisters | chapter9/ex9-1/gpio_module.c:130-131 | for pin 18: bits 24 to 26 of register 1 become 001 and no other bit changes |
| LedDrivers.RegisterDriverRuns | chapter9/ex9-1/gpio_module.c:64-90 | after any run: the message, bit 18 of the latch clear iff the last payload was "0", no other pin moved |
| LedDrivers.CallDriverRuns | chapter9/ex9-2/gpiocall_module.c:52-76 | after any run: the message, the LED off iff the last payload was "0" |
| LedDrivers.LastWriteFound | chapter9/ex9-1/gpio_module.c:77-90 | which write is the last and that only reads follow it |
| LedDrivers.DriversAgreeIff | chapter9/ex9-2/gpiocall_module.c:64-76 | the two drivers show the same LED level iff the run has a write or they started equal |
| LedDrivers.NewlineLightsTheLed | chapter9/ex9-1/gpio_module.c:84-84 | a zero and a newline light the LED in both drivers |
| LedDrivers.Registry.GpioIn | chapter9/ex9-1/gpio_module.c:17-17 | bits 3*(g%10) to 3*(g%10)+2 of register g/10 become 000, every other pin's field, unused bit and register is kept |
| LedDrivers.Registry.GpioOut | chapter9/ex9-1/gpio_module.c:18-18 | the low one of those bits is set, every other pin's field, unused bit and register is kept |
| LedDrivers.Message.Append | chapter9/ex9-1/gpio_module.c:68-68 | strcat: the text with the suffix appended, still terminated |
| LedDrivers.Message.Load | chapter9/ex9-1/gpio_module.c:80-81 | the text is the payload up to its first NUL, terminated |
| LedDrivers.RegisterDriver.constructor | chapter9/ex9-1/gpio_module.c:92-134 | initialisation puts 001 in bits 24 to 26 of register 1 and changes no other bit of any register, nor the latch |
| LedDrivers.RegisterDriver.Read | chapter9/ex9-1/gpio_module.c:64-75 | one step of the register driver; what is delivered |
| LedDrivers.RegisterDriver.Write | chapter9/ex9-1/gpio_module.c:77-90 | one step of the register driver |
| LedDrivers.CallDriver.constructor | chapter9/ex9-2/gpiocall_module.c:108-110 | initialisation drives the LED low |
| LedDrivers.CallDriver.Read | chapter9/ex9-2/gpiocall_module.c:52-62 | one step of the gpio-call driver; what is delivered |
| LedDrivers.CallDriver.Write | chapter9/ex9-2/gpiocall_module.c:64-76 | one step of the gpio-call driver |
| Semaphore.SemaphoreIsExact | chapter5/thread/thread.c:11-62 | in every interleaving the semaphore is 1 + completed v - completed p and never negative |
| Semaphore.NeverStuck | chapter5/thread/thread.c:35-62 | no deadlock is reachable |
| Semaphore.EveryRunFinishes | chapter5/thread/thread.c:79-89 | every run has at most six steps a round, finishes exactly when it has them all, and then the semaphore is 1 |
| Semaphore.CountIsExactWithoutOverlap | chapter5/thread/thread.c:35-62 | while updates do not overlap, cnt = sem - 1 + pending v + pending decrement, never below -1, 0 at the end |
| Semaphore.ExactIffNoOverlap | chapter5/thread/thread.c:35-62 | a finished run kept that formula in every state iff no state had both threads between load and store |
| Semaphore.CountIsBounded | chapter5/thread/thread.c:44-57 | in any interleaving cnt lies between minus the decrements and the increments stored |
| Semaphore.FinalCounts | chapter5/thread/thread.c:44-57 | the possible final counts are exactly -rounds to rounds |
| Semaphore.SoloV | chapter5/thread/thread.c:35-49 | V scheduled alone has the effect of PtheadV's contract |
| Semaphore.SoloP | chapter5/thread/thread.c:51-62 | P scheduled alone has the effect of PtheadP's contract |
| Semaphore.Shared.P | chapter5/thread/thread.c:11-21 | the semaphore decreases by one, from a positive value |
| Semaphore.Shared.V | chapter5/thread/thread.c:23-33 | the semaphore increases by one |
| Semaphore.Shared.PtheadV | chapter5/thread/thread.c:35-49 | undisturbed, raises count and semaphore by the rounds |
| Semaphore.Shared.PtheadP | chapter5/thread/thread.c:51-62 | undisturbed, lowers count and semaphore by the rounds |
| Mutex.EveryScheduleIsSerial | chapter5/thread_mutex/thread_mutex.c:28-48 | whenever the mutex is free, variable and output are those of the serial program in lock order, and the variable is its start plus the number of finished inc threads less the number of finished dec threads |
| Mutex.OrderNamesEachOnce | chapter5/thread_mutex/thread_mutex.c:28-48 | that order names exactly the threads that got the lock, each once |
| Mutex.ExclusiveAndNeverStuck | chapter5/thread_mutex/thread_mutex.c:30-45 | at most one thread is inside, and no deadlock is reachable |
| Mutex.EveryScheduleFinishes | chapter5/thread_mutex/thread_mutex.c:28-48 | every schedule has at most six steps a thread, and has them all iff every thread has finished |
| Mutex.SoloThread | chapter5/thread_mutex/thread_mutex.c:28-48 | a thread scheduled alone prints the value, raises it by one (inc) or lowers it by one (dec), and prints it again |
| Mutex.FinalValue | chapter5/thread_mutex/thread_mutex.c:12-26 | when all have finished the variable is its start plus the number of inc threads less the number of dec threads; the program's two threads end at 1 |
| Mutex.Globals.IncFunction | chapter5/thread_mutex/thread_mutex.c:28-37 | undisturbed, the variable rises by one, printed before and after |
| Mutex.Globals.DecFunction | chapter5/thread_mutex/thread_mutex.c:39-48 | undisturbed, the variable falls by one, printed before and after |
| ListDir.Process.ListDir | chapter4/list/list.c:12-116 | -1 and nothing changed iff the directory cannot be opened; otherwise the directories of Walk listed and the parent of the listed directory current |
| ListDir.Process.ListChildren | chapter4/list/list.c:105-111 | the children listed in order up to the first closed one, current directory kept |
| ListDir.Process.Collect | chapter4/list/list.c:36-104 | dirName holds the subdirectory names in readdir order, without "." and ".." |
| ListDir.TidyGrows | chapter4/list/list.c:87-94 | which trees the walk is for, entry by entry: every subdirectory under a new ordinary name, with room in the array |
| ListDir.WalkListsExactlyVisits | chapter4/list/list.c:27-36 | a directory is listed iff it and its ancestors open and no earlier sibling of any of them is closed |
| ListDir.OpenTreeListedOnce | chapter4/list/list.c:105-115 | if everything opens, every directory is listed exactly once, in pre-order |
| ListDir.WalkListsOnceInOrder | chapter4/list/list.c:105-111 | whatever is closed, the walk is the pre-order list with directories left out, and lists none twice |
| ListDir.RestoresIff | chapter4/list/list.c:112-115 | for every argument that can be resolved, whether the call ends where it started: after an ordinary last name iff the components before it lead to the starting directory, after `.` iff to a directory whose parent it is, after `..` iff to one whose parent's parent it is, and for `/` iff started at the root |
| ListDir.LastDotDecides | chapter4/list/list.c:112-115 | the inputs on which leading back does not decide it: `./.` ends above where it started, and `b/.` from the root ends at the root |
| ListDir.RestoresExactlyForChildren | chapter4/list/list.c:112-115 | for a single name: restored iff it is not "." or "..", or the call started at the root |
| ListDir.AbsoluteFromRoot | chapter4/list/list.c:27-32 | an absolute argument names the same directory from everywhere, the one its components name from the root |
| ListDir.RelativeFromCurrent | chapter4/list/list.c:27-32 | a relative argument is followed from the current directory, component by component, each to an existing directory or nowhere |

## Left out

- Framebuffer.Screen.DrawPoint: needs the addressed pixel inside the device; a failing seek or write outside it is not modelled. A circle or line that leaves the screen sideways but stays in the device is covered, and wraps to the neighbouring row as `Index` says.
- Framebuffer.Screen.PutPixel: needs the pixel inside the device, as DrawPoint does.
- Framebuffer.Screen.DrawLine: needs the whole run inside the device, as DrawPoint does.
- Framebuffer.Screen.DrawFace: needs the whole rectangle inside the device, as DrawPoint does.
- Framebuffer.Screen.DrawFaceMMAP: needs the whole rectangle inside the mapping, since the source writes through the pointer unchecked; pointers are taken to have 32 bits, as on the BCM2835.
- Framebuffer.Screen.DrawCircle: needs every plotted pixel inside the device, because the code does not clip.
- Framebuffer: `ioctl`, `mmap` and device errors; the screen size is a parameter, and its byte size must fit an int.
- Dht.Sensor.ReadData: needs a timeout within 85 edges; otherwise the source writes a sixth element of a five-element array.
- Dht.Sensor.OneEdge: needs the line to time out within the 85 edges, as ReadData does.
- Dht: the start pulse, delays, and the floating-point temperature output.
- RequestServer.Server.HandleLine: needs every piece to fit its buffer, no second leading slash, a nonempty path before a query and a nonempty name and value in each option, since the source otherwise copies from NULL or past a buffer.
- RequestServer.Server.Serve: needs every request line to be one HandleLine handles and shorter than its buffer, since the source copies from it unchecked.
- WebControl: a worker thread that cannot be created is not modelled.
- CStrings.StrCpy: copies between overlapping but different positions of one buffer are not modelled.
- Requests: headers, file sending, and the escapes of section 17.13.4 of HTML 4.01, which the source does not decode.
- Actuators: the switch and light-sensor threads also write the LED pin; the LED theorems speak of the request's own writes. Error returns of pthread calls other than EBUSY are not modelled.
- Actuators, Semaphore, Mutex: the thread functions appear as classes only for uninterrupted execution; interleavings are transition systems on values.
- Semaphore.Shared.PtheadP: needs the semaphore to allow every round, since undisturbed it could otherwise block for ever; blocking is part of the transition system.
- Semaphore: the pause at a count of seven is only a delay and is not a step.
- LedDrivers.RegisterDriver.Read: needs the suffix to fit the buffer; user-space copy faults are not modelled.
- LedDrivers.RegisterDriver.Write: needs the payload to leave room for its terminator; user-space copy faults are not modelled.
- LedDrivers.CallDriver.Read: needs the suffix to fit the buffer, as the register driver's does.
- LedDrivers.CallDriver.Write: needs the payload to leave room for its terminator, as the register driver's does.
- LedDrivers.Message.Load: needs the payload to leave room for its terminator; the source would read past a full buffer when it logs the message.
- LedDrivers: device registration, logging, and `cleanupModule`.
- ListDir.Process.ListDir: a directory that can be opened can also be entered, directories on the argument's own way can be passed through, subdirectory names are unique and fit the array, and saved names stay valid until `closedir`; symbolic links are not modelled.
- ListDir: the permission string, owner lookups and the per-entry output.
- `chapter6/select_server`, `chapter5/rpi5`, `chapter4/rpi4`, `chapter6/webserver`: variants or programs with less to prove.
- The sound, socket, pipe, signal and process demos: system-call plumbing.
