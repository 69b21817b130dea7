/** Numbers the servers use as keys: a session's, unique while the process runs, and a
    device's, its SIM number and channel as one integer (jt1078/AV_Common_Define.h). */
module Ids {
  type Sid = nat
  type Device = nat
}
