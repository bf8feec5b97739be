/** Small value types shared by the model: the two enumerations the load
    balancer imports (`BackendServerHealth`, `SchedulingAlgorithm`), and
    `Option`, which is not one of them but stands for the backend
    constructor's optional status argument and for `getBackendServer`'s
    `undefined` on an empty pool. */
module Enums {

  /** Health of one backend server (`BackendServerHealth`). */
  datatype Health = Healthy | Unhealthy

  /** Scheduling algorithm (`SchedulingAlgorithm`); round robin is the only one. */
  datatype SchedulingAlgorithm = RoundRobin

  /** An argument that may be omitted. */
  datatype Option<T> = None | Some(value: T)
}
